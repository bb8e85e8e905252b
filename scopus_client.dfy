/** The Scopus search client without its HTTP layer. It turns the entries of an author
    search into an author record, extracts research topics from paper titles by keyword
    counting, and classifies the status code of a connection test. Each HTTP response is a
    parameter: its status code and its decoded entry list. */
module ScopusClient {
  import opened Wrappers
  import opened Text
  import opened Seqs
  import opened Dicts
  import opened Records

  // ---------------------------------------------------------------------------
  // Request size
  // ---------------------------------------------------------------------------

  /** The free API tier returns at most this many results per query; it is also the default. */
  const ResultCap := 25

  /** The `count` request parameter for an optional `max_papers` argument. */
  function RequestCount(maxPapers: Option<int>): (count: int)
    ensures count <= ResultCap
    ensures maxPapers.None? ==> count == ResultCap
    ensures maxPapers.Some? ==> (count == maxPapers.value <==> maxPapers.value <= ResultCap)
    ensures maxPapers.Some? && maxPapers.value > ResultCap ==> count == ResultCap
  {
    var requested := maxPapers.GetOr(ResultCap);
    if requested < ResultCap then requested else ResultCap
  }

  // ---------------------------------------------------------------------------
  // Search entries and the author record
  // ---------------------------------------------------------------------------

  /** One entry of `search-results.entry`. `hasError` says whether it carries an `error`
      key. The other fields are `dc:creator`, `dc:title`, `prism:coverDate`, `prism:doi`
      and `citedby-count`, the last already read as an integer. */
  datatype Entry = Entry(hasError: bool, creator: Option<string>, title: Option<string>,
                         coverDate: Option<string>, doi: Option<string>, citedBy: Option<int>)

  /** The part of a search response the client reads: the status code, and the entry list.
      The list is `None` when `search-results` or its `entry` key is missing. */
  datatype Response = Response(status: int, entries: Option<seq<Entry>>)

  predicate IsValid(e: Entry) {
    !e.hasError
  }

  /** The entries without an `error` key, in response order. */
  function ValidEntries(es: seq<Entry>): seq<Entry> {
    Filter(es, IsValid)
  }

  /** An entry's citation count; an absent count is 0. */
  function Cites(e: Entry): int {
    e.citedBy.GetOr(0)
  }

  /** The publication year: the first four characters of a non-empty cover date, else "". */
  function YearOf(coverDate: Option<string>): (year: string)
    ensures |year| <= 4
    ensures year <= coverDate.GetOr("")
    ensures year == "" <==> !Truthy(coverDate)
    ensures Truthy(coverDate) ==> |year| == if |coverDate.value| < 4 then |coverDate.value| else 4
  {
    if Truthy(coverDate) then Take(coverDate.value, 4) else ""
  }

  /** The paper record built from one entry. */
  function PaperOf(e: Entry): Paper {
    Paper(Some(e.title.GetOr("Untitled")), Some(YearOf(e.coverDate)), Some(e.doi.GetOr("")), Some(Cites(e)))
  }

  function PapersOf(es: seq<Entry>): seq<Paper>
    decreases |es|
  {
    if es == [] then [] else PapersOf(es[..|es| - 1]) + [PaperOf(es[|es| - 1])]
  }

  /** The sum of the entries' citation counts. */
  function TotalCitations(es: seq<Entry>): int
    decreases |es|
  {
    if es == [] then 0 else TotalCitations(es[..|es| - 1]) + Cites(es[|es| - 1])
  }

  /** The author's name: the creator of the first valid entry, or "" when it has none. */
  function CreatorOf(valid: seq<Entry>): string {
    if valid != [] && valid[0].creator.Some? then valid[0].creator.value else ""
  }

  /** The titles the topic extractor reads; an absent title counts as "". */
  function TitlesOf(es: seq<Entry>): (titles: seq<string>)
    ensures |titles| == |es|
    ensures forall i :: 0 <= i < |es| ==> titles[i] == es[i].title.GetOr("")
  {
    seq(|es|, i requires 0 <= i < |es| => es[i].title.GetOr(""))
  }

  /** The author record built from the valid entries. */
  function AuthorRecord(valid: seq<Entry>): ProfessorRecord {
    EmptyRecord.(name := Some(CreatorOf(valid)),
                 documentCount := Some(|valid|),
                 citationCount := Some(TotalCitations(valid)),
                 topics := Some(ExtractTopics(TitlesOf(valid))),
                 papers := Some(PapersOf(valid)))
  }

  /** The result of the author search. There is no record when the status is not 200,
      when the response has no entry list, or when every entry is an error entry. */
  function AuthorData(resp: Response): Option<ProfessorRecord> {
    if resp.status != 200 || resp.entries.None? then None
    else
      var valid := ValidEntries(resp.entries.value);
      if |valid| > 0 then Some(AuthorRecord(valid)) else None
  }

  lemma {:induction false} PapersOfFacts(es: seq<Entry>)
    ensures |PapersOf(es)| == |es|
    ensures forall i :: 0 <= i < |es| ==> PapersOf(es)[i] == PaperOf(es[i])
    decreases |es|
  {
    if es != [] {
      PapersOfFacts(es[..|es| - 1]);
    }
  }

  /** The valid entries are the entries without `error`, in response order. */
  lemma ValidEntriesFacts(es: seq<Entry>)
    ensures IsSubsequence(ValidEntries(es), es)
    ensures forall e :: e in ValidEntries(es) <==> e in es && !e.hasError
  {
    FilterIsSubsequence(es, IsValid);
  }

  /** `get_author_data` returns a record exactly when the status is 200 and the entry list
      has an entry without `error`. */
  lemma AuthorDataPresent(resp: Response)
    ensures AuthorData(resp).Some? <==>
              resp.status == 200 && resp.entries.Some? &&
              exists i :: 0 <= i < |resp.entries.value| && !resp.entries.value[i].hasError
  {
    if resp.status == 200 && resp.entries.Some? {
      var es := resp.entries.value;
      var valid := ValidEntries(es);
      if exists i :: 0 <= i < |es| && !es[i].hasError {
        var i :| 0 <= i < |es| && !es[i].hasError;
        assert es[i] in valid;
      }
      if |valid| > 0 {
        assert valid[0] in es && IsValid(valid[0]);
      }
    }
  }

  /** The record `get_author_data` returns counts the valid entries and sums their
      citations. It has one paper per valid entry, in order, with that entry's citations,
      its title or "Untitled", its year, and its DOI or "". */
  lemma AuthorDataRecord(resp: Response)
    ensures AuthorData(resp).Some? ==>
              var valid := ValidEntries(resp.entries.value);
              var r := AuthorData(resp).value;
              && r.documentCount == Some(|valid|)
              && r.citationCount == Some(TotalCitations(valid))
              && r.name == Some(CreatorOf(valid))
              && r.topics == Some(ExtractTopics(TitlesOf(valid)))
              && r.scopusId.None?
              && r.papers.Some? && |r.papers.value| == |valid|
              && (forall i :: 0 <= i < |valid| ==>
                    && r.papers.value[i].citations == Some(Cites(valid[i]))
                    && r.papers.value[i].title == Some(valid[i].title.GetOr("Untitled"))
                    && r.papers.value[i].doi == Some(valid[i].doi.GetOr(""))
                    && r.papers.value[i].year == Some(YearOf(valid[i].coverDate)))
  {
    if AuthorData(resp).Some? {
      PapersOfFacts(ValidEntries(resp.entries.value));
    }
  }

  /** `get_author_data` after the request: drops the error entries, then builds the paper
      list and the citation total in one pass, and extracts the topics. */
  method GetAuthorData(resp: Response) returns (r: Option<ProfessorRecord>)
    ensures r == AuthorData(resp)
  {
    if resp.status == 401 {
      return None;
    }
    if resp.status != 200 {
      return None;
    }
    var name := "";
    var documentCount := 0;
    var citationCount := 0;
    var topics: seq<string> := [];
    var papers: seq<Paper> := [];
    if resp.entries.Some? {
      var valid := Filter(resp.entries.value, IsValid);
      documentCount := |valid|;
      if |valid| > 0 && valid[0].creator.Some? {
        name := valid[0].creator.value;
      }
      var total := 0;
      var built: seq<Paper> := [];
      for i := 0 to |valid|
        invariant total == TotalCitations(valid[..i])
        invariant built == PapersOf(valid[..i])
      {
        var cites := Cites(valid[i]);
        total := total + cites;
        built := built + [PaperOf(valid[i])];
        assert valid[..i + 1][..i] == valid[..i];
      }
      assert valid[..|valid|] == valid;
      citationCount := total;
      papers := built;
      topics := ExtractTopicsFromTitles(valid);
      if documentCount > 0 {
        r := Some(EmptyRecord.(name := Some(name), documentCount := Some(documentCount),
                               citationCount := Some(citationCount), topics := Some(topics),
                               papers := Some(papers)));
        return;
      }
    }
    r := None;
  }

  /** `get_professor_complete_data`: the author record with the author id added. */
  function CompleteData(authorId: string, resp: Response): (r: Option<ProfessorRecord>)
    ensures r.Some? <==> AuthorData(resp).Some?
    ensures r.Some? ==> r.value.scopusId == Some(authorId)
    ensures r.Some? ==> r.value.(scopusId := None) == AuthorData(resp).value
  {
    match AuthorData(resp)
    case None => None
    case Some(d) => Some(d.(scopusId := Some(authorId)))
  }

  method GetProfessorCompleteData(authorId: string, resp: Response) returns (r: Option<ProfessorRecord>)
    ensures r == CompleteData(authorId, resp)
  {
    var authorData := GetAuthorData(resp);
    if authorData.None? {
      return None;
    }
    r := Some(authorData.value.(scopusId := Some(authorId)));
  }

  // ---------------------------------------------------------------------------
  // Topics from titles
  // ---------------------------------------------------------------------------

  /** The research keywords the titles are searched for, in the order they are tried. */
  const ResearchKeywords: seq<string> := [
    "Machine Learning", "Deep Learning", "Neural Network", "Artificial Intelligence",
    "Computer Vision", "Natural Language Processing", "Data Mining", "Big Data",
    "Cloud Computing", "IoT", "Internet of Things", "Security", "Cryptography",
    "Algorithm", "Optimization", "Database", "Web", "Mobile", "Software Engineering",
    "Network", "Distributed System", "Blockchain", "Robotics", "Image Processing",
    "Classification", "Clustering", "Prediction", "Recommendation", "Pattern Recognition",
    "Genetic Algorithm", "Fuzzy", "Swarm Intelligence", "Expert System",
    "Knowledge Management", "Information Retrieval", "Semantic"
  ]

  /** The topic list when no title mentions any keyword. */
  const DefaultTopic := "Computer Science"

  /** At most this many topics are returned. */
  const MaxTopics := 15

  /** This many topics are taken whatever their count; any later one needs `RepeatCount`. */
  const TopicsTakenFreely := 10

  const RepeatCount := 2

  /** The default topic is not a keyword. */
  lemma DefaultNotKeyword()
    ensures DefaultTopic !in ResearchKeywords
  {
  }

  /** No keyword is listed twice. */
  lemma KeywordsDistinct()
    ensures Distinct(ResearchKeywords)
  {
    KeywordsDistinctFrom0();
    KeywordsDistinctFrom2();
    KeywordsDistinctFrom4();
    KeywordsDistinctFrom8();
    KeywordsDistinctFrom14();
    KeywordsDistinctFrom22();
  }

  lemma KeywordsDistinctFrom0()
    ensures forall i, j :: 0 <= i < 2 && i < j < |ResearchKeywords| ==> ResearchKeywords[i] != ResearchKeywords[j]
  {
  }

  lemma KeywordsDistinctFrom2()
    ensures forall i, j :: 2 <= i < 4 && i < j < |ResearchKeywords| ==> ResearchKeywords[i] != ResearchKeywords[j]
  {
  }

  lemma KeywordsDistinctFrom4()
    ensures forall i, j :: 4 <= i < 8 && i < j < |ResearchKeywords| ==> ResearchKeywords[i] != ResearchKeywords[j]
  {
  }

  lemma KeywordsDistinctFrom8()
    ensures forall i, j :: 8 <= i < 14 && i < j < |ResearchKeywords| ==> ResearchKeywords[i] != ResearchKeywords[j]
  {
  }

  lemma KeywordsDistinctFrom14()
    ensures forall i, j :: 14 <= i < 22 && i < j < |ResearchKeywords| ==> ResearchKeywords[i] != ResearchKeywords[j]
  {
  }

  lemma KeywordsDistinctFrom22()
    ensures forall i, j :: 22 <= i < 36 && i < j < |ResearchKeywords| ==> ResearchKeywords[i] != ResearchKeywords[j]
  {
  }

  /** The lower-cased title contains the lower-cased keyword. */
  predicate Mentions(title: string, keyword: string) {
    IsSubstring(Lower(keyword), Lower(title))
  }

  /** Some title mentions some keyword. */
  predicate AnyMention(titles: seq<string>, keywords: seq<string>) {
    exists i, k :: 0 <= i < |titles| && 0 <= k < |keywords| && Mentions(titles[i], keywords[k])
  }

  // The counting loops are stated for any test `matches(title, keyword)`; the extractor
  // uses `Mentions`.

  /** The number of titles that `keyword` matches. */
  function Hits(titles: seq<string>, keyword: string, matches: (string, string) -> bool): (n: nat)
    ensures n <= |titles|
    decreases |titles|
  {
    if titles == [] then 0
    else Hits(titles[..|titles| - 1], keyword, matches) + (if matches(titles[|titles| - 1], keyword) then 1 else 0)
  }

  /** The number of titles that mention `keyword`. */
  function TitlesMentioning(titles: seq<string>, keyword: string): nat {
    Hits(titles, keyword, Mentions)
  }

  /** A keyword has a positive count exactly when it matches some title. */
  lemma {:induction false} HitsPositive(titles: seq<string>, keyword: string, matches: (string, string) -> bool)
    ensures Hits(titles, keyword, matches) > 0 <==> exists i :: 0 <= i < |titles| && matches(titles[i], keyword)
    decreases |titles|
  {
    if titles != [] {
      var n := |titles| - 1;
      HitsPositive(titles[..n], keyword, matches);
      if exists i :: 0 <= i < n && matches(titles[..n][i], keyword) {
        var i :| 0 <= i < n && matches(titles[..n][i], keyword);
        assert titles[i] == titles[..n][i];
      }
      if exists i :: 0 <= i < |titles| && matches(titles[i], keyword) {
        var i :| 0 <= i < |titles| && matches(titles[i], keyword);
        if i < n {
          assert titles[..n][i] == titles[i];
        }
      }
    }
  }

  /** One pass of the inner counting loop: `keyword`'s count goes up by one on a hit. A
      keyword not counted before starts from 0. */
  function Bump(counts: Dict<nat>, keyword: string, hit: bool): Dict<nat> {
    if hit then Put(counts, keyword, Lookup(counts, keyword).GetOr(0) + 1) else counts
  }

  /** The inner loop over the keywords, for one title. */
  function TallyTitle(counts: Dict<nat>, title: string, keywords: seq<string>, matches: (string, string) -> bool): Dict<nat>
    decreases |keywords|
  {
    if keywords == [] then counts
    else
      var last := keywords[|keywords| - 1];
      Bump(TallyTitle(counts, title, keywords[..|keywords| - 1], matches), last, matches(title, last))
  }

  /** `keyword_counts` after the outer loop over the titles. */
  function Tally(titles: seq<string>, keywords: seq<string>, matches: (string, string) -> bool): Dict<nat>
    decreases |titles|
  {
    if titles == [] then []
    else TallyTitle(Tally(titles[..|titles| - 1], keywords, matches), titles[|titles| - 1], keywords, matches)
  }

  /** Dropping the last element keeps a list distinct, and the last is not among the rest. */
  lemma DistinctSnoc(s: seq<string>)
    requires Distinct(s) && s != []
    ensures Distinct(s[..|s| - 1])
    ensures s[|s| - 1] !in s[..|s| - 1]
  {
    var pre := s[..|s| - 1];
    forall i | 0 <= i < |pre| ensures pre[i] != s[|s| - 1] {
      assert pre[i] == s[i];
    }
  }

  /** What a lookup of `k` finds after one pass for `k` with outcome `hit`. */
  function Counted(counts: Dict<nat>, k: string, hit: bool): Option<nat> {
    if hit then Some(Lookup(counts, k).GetOr(0) + 1) else Lookup(counts, k)
  }

  lemma BumpLookup(counts: Dict<nat>, keyword: string, hit: bool, k: string)
    ensures Lookup(Bump(counts, keyword, hit), k) == if k == keyword then Counted(counts, k, hit) else Lookup(counts, k)
  {
    if hit && k == keyword {
      BumpHitSame(counts, keyword);
    } else if hit {
      BumpHitOther(counts, keyword, k);
    }
  }

  lemma BumpHitSame(counts: Dict<nat>, keyword: string)
    ensures Lookup(Bump(counts, keyword, true), keyword) == Some(Lookup(counts, keyword).GetOr(0) + 1)
  {
    var v := Lookup(counts, keyword).GetOr(0) + 1;
    assert Bump(counts, keyword, true) == Put(counts, keyword, v);
  }

  lemma BumpHitOther(counts: Dict<nat>, keyword: string, k: string)
    requires k != keyword
    ensures Lookup(Bump(counts, keyword, true), k) == Lookup(counts, k)
  {
    var v := Lookup(counts, keyword).GetOr(0) + 1;
    assert Bump(counts, keyword, true) == Put(counts, keyword, v);
  }

  /** A pass for one title leaves the count of a string that is not a keyword alone. */
  lemma {:induction false} TallyTitleOther(counts: Dict<nat>, title: string, keywords: seq<string>,
                                           matches: (string, string) -> bool, k: string)
    requires k !in keywords
    ensures Lookup(TallyTitle(counts, title, keywords, matches), k) == Lookup(counts, k)
    decreases |keywords|
  {
    if keywords != [] {
      var n := |keywords| - 1;
      var pre, last := keywords[..n], keywords[n];
      assert k !in pre && k != last by {
        Seqs.SplitLast(keywords);
      }
      TallyTitleOther(counts, title, pre, matches, k);
      BumpLookup(TallyTitle(counts, title, pre, matches), last, matches(title, last), k);
    }
  }

  /** A pass for one title counts each keyword once, by whether it matches the title. */
  lemma {:induction false} TallyTitleIn(counts: Dict<nat>, title: string, keywords: seq<string>,
                                        matches: (string, string) -> bool, k: string)
    requires Distinct(keywords) && k in keywords
    ensures Lookup(TallyTitle(counts, title, keywords, matches), k) == Counted(counts, k, matches(title, k))
    decreases |keywords|
  {
    var n := |keywords| - 1;
    DistinctSnoc(keywords);
    assert k in keywords[..n] || k == keywords[n] by {
      Seqs.SplitLast(keywords);
    }
    if k == keywords[n] {
      TallyTitleInLast(counts, title, keywords, matches);
    } else {
      TallyTitleIn(counts, title, keywords[..n], matches, k);
      TallyTitleInEarlier(counts, title, keywords, matches, k);
    }
  }

  /** The last keyword is counted by the last pass only. */
  lemma TallyTitleInLast(counts: Dict<nat>, title: string, keywords: seq<string>,
                         matches: (string, string) -> bool)
    requires keywords != [] && keywords[|keywords| - 1] !in keywords[..|keywords| - 1]
    ensures var k := keywords[|keywords| - 1];
            Lookup(TallyTitle(counts, title, keywords, matches), k) == Counted(counts, k, matches(title, k))
  {
    var n := |keywords| - 1;
    var pre, k := keywords[..n], keywords[n];
    TallyTitleOther(counts, title, pre, matches, k);
    BumpLookup(TallyTitle(counts, title, pre, matches), k, matches(title, k), k);
  }

  /** A keyword before the last one keeps the count the earlier passes gave it. */
  lemma TallyTitleInEarlier(counts: Dict<nat>, title: string, keywords: seq<string>,
                            matches: (string, string) -> bool, k: string)
    requires keywords != [] && k != keywords[|keywords| - 1]
    requires Lookup(TallyTitle(counts, title, keywords[..|keywords| - 1], matches), k) == Counted(counts, k, matches(title, k))
    ensures Lookup(TallyTitle(counts, title, keywords, matches), k) == Counted(counts, k, matches(title, k))
  {
    var n := |keywords| - 1;
    var pre, last := keywords[..n], keywords[n];
    BumpLookup(TallyTitle(counts, title, pre, matches), last, matches(title, last), k);
  }

  /** The inner loop: a keyword's count goes up by one when it matches the title, and
      nothing else changes. */
  lemma TallyTitleLookup(counts: Dict<nat>, title: string, keywords: seq<string>,
                         matches: (string, string) -> bool, k: string)
    requires Distinct(keywords)
    ensures Lookup(TallyTitle(counts, title, keywords, matches), k) ==
              if k in keywords then Counted(counts, k, matches(title, k)) else Lookup(counts, k)
  {
    if k in keywords {
      TallyTitleIn(counts, title, keywords, matches, k);
    } else {
      TallyTitleOther(counts, title, keywords, matches, k);
    }
  }

  /** A string that is not a keyword never gets a count. */
  lemma {:induction false} TallyOther(titles: seq<string>, keywords: seq<string>, matches: (string, string) -> bool, k: string)
    requires k !in keywords
    ensures Lookup(Tally(titles, keywords, matches), k).None?
    decreases |titles|
  {
    if titles != [] {
      var n := |titles| - 1;
      TallyOther(titles[..n], keywords, matches, k);
      TallyTitleOther(Tally(titles[..n], keywords, matches), titles[n], keywords, matches, k);
    }
  }

  /** A keyword's count is the number of titles it matches, and it has none when that is 0. */
  lemma {:induction false} TallyCount(titles: seq<string>, keywords: seq<string>, matches: (string, string) -> bool, k: string)
    requires Distinct(keywords) && k in keywords
    ensures Lookup(Tally(titles, keywords, matches), k) ==
              if Hits(titles, k, matches) > 0 then Some(Hits(titles, k, matches)) else None
    decreases |titles|
  {
    if titles != [] {
      var n := |titles| - 1;
      var before := Tally(titles[..n], keywords, matches);
      TallyCount(titles[..n], keywords, matches, k);
      TallyTitleIn(before, titles[n], keywords, matches, k);
      assert Hits(titles, k, matches) == Hits(titles[..n], k, matches) + (if matches(titles[n], k) then 1 else 0);
    }
  }

  /** After counting, a keyword has a count exactly when it matches some title, and its
      count is the number of titles it matches. Any other string has no count. */
  lemma TallyLookup(titles: seq<string>, keywords: seq<string>, matches: (string, string) -> bool, k: string)
    requires Distinct(keywords)
    ensures Lookup(Tally(titles, keywords, matches), k) ==
              if k in keywords && Hits(titles, k, matches) > 0 then Some(Hits(titles, k, matches)) else None
  {
    if k in keywords {
      TallyCount(titles, keywords, matches, k);
    } else {
      TallyOther(titles, keywords, matches, k);
    }
  }

  /** The sort key of the count pairs. */
  function ByCount(item: (string, nat)): int {
    item.1
  }

  /** The selection loop: walks the sorted pairs and takes a keyword when its count is at
      least `RepeatCount` or fewer than `TopicsTakenFreely` have been taken. It stops once
      `MaxTopics` are taken. `taken` is the number taken so far. */
  function Select(sorted: seq<(string, nat)>, taken: nat): seq<(string, nat)>
    decreases |sorted|
  {
    if sorted == [] then []
    else if sorted[0].1 >= RepeatCount || taken < TopicsTakenFreely then
      if taken + 1 >= MaxTopics then [sorted[0]] else [sorted[0]] + Select(sorted[1..], taken + 1)
    else if taken >= MaxTopics then []
    else Select(sorted[1..], taken)
  }

  /** The selection never exceeds the bound, takes only pairs it was given, and takes a
      pair with a count under `RepeatCount` only within the first `TopicsTakenFreely`. */
  lemma {:induction false} SelectBounds(sorted: seq<(string, nat)>, taken: nat)
    requires taken < MaxTopics
    ensures taken + |Select(sorted, taken)| <= MaxTopics
    ensures forall x :: x in Select(sorted, taken) ==> x in sorted
    ensures forall k :: 0 <= k < |Select(sorted, taken)| && taken + k >= TopicsTakenFreely ==>
              Select(sorted, taken)[k].1 >= RepeatCount
    decreases |sorted|
  {
    if sorted != [] {
      var sel := Select(sorted, taken);
      if sorted[0].1 >= RepeatCount || taken < TopicsTakenFreely {
        if taken + 1 < MaxTopics {
          SelectBounds(sorted[1..], taken + 1);
          var rest := Select(sorted[1..], taken + 1);
          assert sel == [sorted[0]] + rest;
          forall k | 0 <= k < |sel| && taken + k >= TopicsTakenFreely ensures sel[k].1 >= RepeatCount {
            if k > 0 {
              assert sel[k] == rest[k - 1];
            }
          }
        }
      } else if taken < MaxTopics {
        SelectBounds(sorted[1..], taken);
      }
    }
  }

  /** The selection keeps the order of the sorted pairs and their distinct keys. */
  lemma {:induction false} SelectOrdered(sorted: seq<(string, nat)>, taken: nat)
    requires NonIncreasing(sorted, ByCount) && KeysDistinct(sorted)
    ensures NonIncreasing(Select(sorted, taken), ByCount)
    ensures KeysDistinct(Select(sorted, taken))
    ensures forall x :: x in Select(sorted, taken) ==> x in sorted
    decreases |sorted|
  {
    if sorted != [] {
      var tail := sorted[1..];
      assert NonIncreasing(tail, ByCount) by {
        forall i, j | 0 <= i < j < |tail| ensures ByCount(tail[i]) >= ByCount(tail[j]) {
          assert tail[i] == sorted[i + 1] && tail[j] == sorted[j + 1];
        }
      }
      assert KeysDistinct(tail) by {
        forall i, j | 0 <= i < j < |tail| ensures tail[i].0 != tail[j].0 {
          assert tail[i] == sorted[i + 1] && tail[j] == sorted[j + 1];
        }
      }
      var sel := Select(sorted, taken);
      if sorted[0].1 >= RepeatCount || taken < TopicsTakenFreely {
        if taken + 1 < MaxTopics {
          SelectOrdered(tail, taken + 1);
          var rest := Select(tail, taken + 1);
          assert sel == [sorted[0]] + rest;
          forall j | 0 <= j < |rest| ensures rest[j].0 != sorted[0].0 && ByCount(rest[j]) <= ByCount(sorted[0]) {
            assert rest[j] in tail;
            var m :| 0 <= m < |tail| && tail[m] == rest[j];
            assert tail[m] == sorted[m + 1];
          }
          forall i, j | 0 <= i < j < |sel| ensures ByCount(sel[i]) >= ByCount(sel[j]) && sel[i].0 != sel[j].0 {
            assert sel[j] == rest[j - 1];
            if i > 0 {
              assert sel[i] == rest[i - 1];
            }
          }
        }
      } else if taken < MaxTopics {
        SelectOrdered(tail, taken);
      }
    }
  }

  /** Once `TopicsTakenFreely` are taken, pairs whose counts are all under `RepeatCount`
      are all skipped. */
  lemma {:induction false} SelectSkipsRest(sorted: seq<(string, nat)>, taken: nat)
    requires taken >= TopicsTakenFreely
    requires forall i :: 0 <= i < |sorted| ==> sorted[i].1 < RepeatCount
    ensures Select(sorted, taken) == []
    decreases |sorted|
  {
    if sorted != [] && taken < MaxTopics {
      assert sorted[0].1 < RepeatCount;
      var tail := sorted[1..];
      forall i | 0 <= i < |tail| ensures tail[i].1 < RepeatCount {
        assert tail[i] == sorted[i + 1];
      }
      SelectSkipsRest(tail, taken);
    }
  }

  /** On pairs sorted by count the selection is a prefix of them: it stops only when
      `MaxTopics` are taken, or, past the first `TopicsTakenFreely`, at the first pair whose
      count is under `RepeatCount`. */
  lemma {:induction false} SelectPrefix(sorted: seq<(string, nat)>, taken: nat)
    requires NonIncreasing(sorted, ByCount) && taken < MaxTopics
    ensures |Select(sorted, taken)| <= |sorted|
    ensures Select(sorted, taken) == sorted[..|Select(sorted, taken)|]
    ensures var n := |Select(sorted, taken)|;
            n < |sorted| ==> taken + n == MaxTopics || (taken + n >= TopicsTakenFreely && sorted[n].1 < RepeatCount)
    decreases |sorted|
  {
    if sorted != [] {
      var tail := sorted[1..];
      var sel := Select(sorted, taken);
      if sorted[0].1 >= RepeatCount || taken < TopicsTakenFreely {
        if taken + 1 < MaxTopics {
          NonIncreasingTail(sorted, ByCount);
          SelectPrefix(tail, taken + 1);
          var rest := Select(tail, taken + 1);
          assert sel == [sorted[0]] + rest;
          assert rest == sorted[1..|sel|];
          if |sel| < |sorted| {
            assert sorted[|sel|] == tail[|rest|];
          }
        } else {
          assert sel == sorted[..1];
        }
      } else {
        forall i | 0 <= i < |tail| ensures tail[i].1 < RepeatCount {
          assert tail[i] == sorted[i + 1] && ByCount(sorted[0]) >= ByCount(sorted[i + 1]);
        }
        SelectSkipsRest(tail, taken);
      }
    }
  }

  /** The keyword counts, most mentions first, ties in first-counted order
      (`sorted_keywords`). */
  function Ranked(titles: seq<string>): seq<(string, nat)> {
    SortDesc(Tally(titles, ResearchKeywords, Mentions), ByCount)
  }

  /** The ranked pairs are sorted by count and hold each mentioned keyword once, with the
      number of titles that mention it, and nothing else. */
  lemma RankedFacts(titles: seq<string>)
    ensures NonIncreasing(Ranked(titles), ByCount) && KeysDistinct(Ranked(titles))
    ensures forall x :: x in Ranked(titles) ==>
              x.0 in ResearchKeywords && x.1 == TitlesMentioning(titles, x.0) && x.1 >= 1
    ensures forall kw :: kw in ResearchKeywords && TitlesMentioning(titles, kw) >= 1 ==>
              (kw, TitlesMentioning(titles, kw)) in Ranked(titles)
  {
    KeywordsDistinct();
    var counts := Tally(titles, ResearchKeywords, Mentions);
    var sorted := Ranked(titles);
    SortDescCorrect(counts, ByCount);
    PermutationKeepsKeysDistinct(counts, sorted);
    forall x | x in sorted
      ensures x.0 in ResearchKeywords && x.1 == TitlesMentioning(titles, x.0) && x.1 >= 1
    {
      assert x in multiset(sorted);
      LookupMember(counts, x);
      TallyLookup(titles, ResearchKeywords, Mentions, x.0);
    }
    forall kw | kw in ResearchKeywords && TitlesMentioning(titles, kw) >= 1
      ensures (kw, TitlesMentioning(titles, kw)) in sorted
    {
      TallyLookup(titles, ResearchKeywords, Mentions, kw);
      LookupSome(counts, kw);
      assert (kw, TitlesMentioning(titles, kw)) in multiset(counts);
    }
  }

  /** The chosen pairs are the top of the ranking: a prefix of it that stops only at
      `MaxTopics`, or past `TopicsTakenFreely` at the first keyword mentioned only once. */
  lemma ChosenTop(titles: seq<string>)
    ensures |Chosen(titles)| <= |Ranked(titles)|
    ensures Chosen(titles) == Ranked(titles)[..|Chosen(titles)|]
    ensures var n := |Chosen(titles)|;
            n < |Ranked(titles)| ==>
              n == MaxTopics || (n >= TopicsTakenFreely && Ranked(titles)[n].1 < RepeatCount)
  {
    RankedFacts(titles);
    SelectPrefix(Ranked(titles), 0);
  }

  /** A mentioned keyword left out of the selection was left out because `MaxTopics` were
      taken, or because it is mentioned only once and `TopicsTakenFreely` were taken; and every
      chosen keyword is mentioned at least as often. */
  lemma Unchosen(titles: seq<string>, kw: string)
    requires kw in ResearchKeywords && TitlesMentioning(titles, kw) >= 1 && kw !in Keys(Chosen(titles))
    ensures |Chosen(titles)| == MaxTopics ||
            (|Chosen(titles)| >= TopicsTakenFreely && TitlesMentioning(titles, kw) < RepeatCount)
    ensures forall i :: 0 <= i < |Chosen(titles)| ==> Chosen(titles)[i].1 >= TitlesMentioning(titles, kw)
  {
    var ranked, chosen := Ranked(titles), Chosen(titles);
    RankedFacts(titles);
    ChosenTop(titles);
    var m :| 0 <= m < |ranked| && ranked[m] == (kw, TitlesMentioning(titles, kw));
    PrefixLeftOut(ranked, chosen, m);
  }

  /** A pair of a sorted list that is not in a prefix of it comes after that prefix, and
      every pair of the prefix, as well as the first pair after it, has at least its count. */
  lemma PrefixLeftOut(ranked: seq<(string, nat)>, chosen: seq<(string, nat)>, m: nat)
    requires NonIncreasing(ranked, ByCount) && |chosen| <= |ranked| && chosen == ranked[..|chosen|]
    requires m < |ranked| && ranked[m].0 !in Keys(chosen)
    ensures |chosen| <= m
    ensures forall i :: 0 <= i < |chosen| ==> chosen[i].1 >= ranked[m].1
    ensures ranked[|chosen|].1 >= ranked[m].1
  {
    forall i | 0 <= i < |chosen| ensures chosen[i].1 >= ranked[m].1 {
      assert chosen[i] == ranked[i] && ByCount(ranked[i]) >= ByCount(ranked[m]);
    }
    if |chosen| < m {
      assert ByCount(ranked[|chosen|]) >= ByCount(ranked[m]);
    }
  }

  /** The extracted topics are the most-mentioned keywords: every topic is mentioned at least
      as often as every keyword left out; a keyword mentioned at least `RepeatCount` times is
      left out only when `MaxTopics` topics were taken; and with fewer than
      `TopicsTakenFreely` topics, every mentioned keyword is a topic. */
  lemma ExtractTopicsTop(titles: seq<string>)
    ensures AnyMention(titles, ResearchKeywords) ==>
              var r := ExtractTopics(titles);
              && (forall kw, i :: kw in ResearchKeywords && kw !in r && 0 <= i < |r| ==>
                    TitlesMentioning(titles, r[i]) >= TitlesMentioning(titles, kw))
              && (forall kw :: kw in ResearchKeywords && TitlesMentioning(titles, kw) >= RepeatCount ==>
                    kw in r || |r| == MaxTopics)
              && (|r| < TopicsTakenFreely ==>
                    forall kw :: kw in ResearchKeywords && TitlesMentioning(titles, kw) >= 1 ==> kw in r)
  {
    var chosen := Chosen(titles);
    ChosenEmpty(titles);
    if chosen != [] {
      var r := Keys(chosen);
      assert ExtractTopics(titles) == r;
      RankedFacts(titles);
      ChosenTop(titles);
      forall kw, i | kw in ResearchKeywords && kw !in r && 0 <= i < |r|
        ensures TitlesMentioning(titles, r[i]) >= TitlesMentioning(titles, kw)
      {
        if TitlesMentioning(titles, kw) >= 1 {
          Unchosen(titles, kw);
          assert chosen[i] == Ranked(titles)[i] && chosen[i] in Ranked(titles);
        }
      }
      forall kw | kw in ResearchKeywords && TitlesMentioning(titles, kw) >= RepeatCount
        ensures kw in r || |r| == MaxTopics
      {
        if kw !in r {
          Unchosen(titles, kw);
        }
      }
      if |r| < TopicsTakenFreely {
        forall kw | kw in ResearchKeywords && TitlesMentioning(titles, kw) >= 1 ensures kw in r {
          if kw !in r {
            Unchosen(titles, kw);
          }
        }
      }
    }
  }

  /** `_extract_topics_from_titles` as a value: count, sort by count (most first, ties in
      first-counted order), select, and fall back to the default topic. */
  function ExtractTopics(titles: seq<string>): seq<string> {
    var chosen := Chosen(titles);
    if chosen == [] then [DefaultTopic] else Keys(chosen)
  }

  /** The (keyword, count) pairs the selection keeps. */
  function Chosen(titles: seq<string>): seq<(string, nat)> {
    Select(Ranked(titles), 0)
  }

  /** Every pair the selection keeps is a keyword with the number of titles that mention it,
      and that number is positive. */
  lemma ChosenCounts(titles: seq<string>)
    ensures forall x :: x in Chosen(titles) ==>
              x.0 in ResearchKeywords && x.1 == TitlesMentioning(titles, x.0) && x.1 >= 1
  {
    KeywordsDistinct();
    var counts := Tally(titles, ResearchKeywords, Mentions);
    var sorted := SortDesc(counts, ByCount);
    SortDescCorrect(counts, ByCount);
    SelectBounds(sorted, 0);
    forall x | x in Chosen(titles)
      ensures x.0 in ResearchKeywords && x.1 == TitlesMentioning(titles, x.0) && x.1 >= 1
    {
      assert x in multiset(sorted);
      LookupMember(counts, x);
      TallyLookup(titles, ResearchKeywords, Mentions, x.0);
    }
  }

  /** Nothing is selected exactly when no title mentions any keyword. */
  lemma ChosenEmpty(titles: seq<string>)
    ensures Chosen(titles) == [] <==> !AnyMention(titles, ResearchKeywords)
  {
    KeywordsDistinct();
    var counts := Tally(titles, ResearchKeywords, Mentions);
    var sorted := SortDesc(counts, ByCount);
    assert Chosen(titles) == [] <==> counts == [];
    if AnyMention(titles, ResearchKeywords) {
      var i, k :| 0 <= i < |titles| && 0 <= k < |ResearchKeywords| && Mentions(titles[i], ResearchKeywords[k]);
      HitsPositive(titles, ResearchKeywords[k], Mentions);
      TallyLookup(titles, ResearchKeywords, Mentions, ResearchKeywords[k]);
    }
    if counts != [] {
      var x := counts[0];
      LookupAt(counts, 0);
      TallyLookup(titles, ResearchKeywords, Mentions, x.0);
      HitsPositive(titles, x.0, Mentions);
      var i :| 0 <= i < |titles| && Mentions(titles[i], x.0);
      var k :| 0 <= k < |ResearchKeywords| && ResearchKeywords[k] == x.0;
      assert Mentions(titles[i], ResearchKeywords[k]);
    }
  }

  /** The selected pairs come in non-increasing order of count, with distinct keywords, at
      most `MaxTopics` of them, and every one past the first `TopicsTakenFreely` has a count
      of at least `RepeatCount`. */
  lemma ChosenShape(titles: seq<string>)
    ensures |Chosen(titles)| <= MaxTopics
    ensures NonIncreasing(Chosen(titles), ByCount)
    ensures KeysDistinct(Chosen(titles))
    ensures forall k :: TopicsTakenFreely <= k < |Chosen(titles)| ==> Chosen(titles)[k].1 >= RepeatCount
  {
    var counts := Tally(titles, ResearchKeywords, Mentions);
    var sorted := SortDesc(counts, ByCount);
    SortDescCorrect(counts, ByCount);
    PermutationKeepsKeysDistinct(counts, sorted);
    SelectBounds(sorted, 0);
    SelectOrdered(sorted, 0);
  }

  /** The extracted topics are sound. There are between 1 and `MaxTopics` of them. When no
      title mentions a keyword, the list is exactly the default topic. Otherwise every topic
      is a distinct keyword that at least one title mentions. The topics come in
      non-increasing order of the number of titles mentioning them, and every topic past the
      first `TopicsTakenFreely` is mentioned by at least `RepeatCount` titles. */
  lemma ExtractTopicsSound(titles: seq<string>)
    ensures 1 <= |ExtractTopics(titles)| <= MaxTopics
    ensures !AnyMention(titles, ResearchKeywords) ==> ExtractTopics(titles) == [DefaultTopic]
    ensures AnyMention(titles, ResearchKeywords) ==>
              var r := ExtractTopics(titles);
              && r != [DefaultTopic]
              && (forall i :: 0 <= i < |r| ==> r[i] in ResearchKeywords && TitlesMentioning(titles, r[i]) >= 1)
              && Distinct(r)
              && (forall i, j :: 0 <= i < j < |r| ==> TitlesMentioning(titles, r[i]) >= TitlesMentioning(titles, r[j]))
              && (forall i :: TopicsTakenFreely <= i < |r| ==> TitlesMentioning(titles, r[i]) >= RepeatCount)
  {
    KeywordsDistinct();
    var chosen := Chosen(titles);
    ChosenCounts(titles);
    ChosenEmpty(titles);
    ChosenShape(titles);
    if chosen != [] {
      var r := Keys(chosen);
      forall i | 0 <= i < |r| ensures r[i] in ResearchKeywords && TitlesMentioning(titles, r[i]) >= 1 {
        assert chosen[i] in chosen;
      }
      forall i, j | 0 <= i < j < |r|
        ensures r[i] != r[j] && TitlesMentioning(titles, r[i]) >= TitlesMentioning(titles, r[j])
      {
        assert chosen[i] in chosen && chosen[j] in chosen;
        assert ByCount(chosen[i]) >= ByCount(chosen[j]);
      }
      forall i | TopicsTakenFreely <= i < |r| ensures TitlesMentioning(titles, r[i]) >= RepeatCount {
        assert chosen[i] in chosen;
      }
      DefaultNotKeyword();
      assert r[0] in ResearchKeywords;
    }
  }
  /** The extracted topics are the keywords at the head of the ranking. */
  lemma ExtractTopicsPrefix(titles: seq<string>)
    ensures AnyMention(titles, ResearchKeywords) ==>
              var r := ExtractTopics(titles);
              |r| <= |Ranked(titles)| && r == Keys(Ranked(titles)[..|r|])
  {
    ChosenTop(titles);
    ChosenEmpty(titles);
  }

  /** `_extract_topics_from_titles`: the sound properties above, and the topics are the
      most-mentioned keywords (they are the head of the ranking, `ExtractTopicsPrefix`). */
  lemma ExtractTopicsCorrect(titles: seq<string>)
    ensures 1 <= |ExtractTopics(titles)| <= MaxTopics
    ensures !AnyMention(titles, ResearchKeywords) ==> ExtractTopics(titles) == [DefaultTopic]
    ensures AnyMention(titles, ResearchKeywords) ==>
              var r := ExtractTopics(titles);
              && r != [DefaultTopic]
              && (forall i :: 0 <= i < |r| ==> r[i] in ResearchKeywords && TitlesMentioning(titles, r[i]) >= 1)
              && Distinct(r)
              && (forall i, j :: 0 <= i < j < |r| ==> TitlesMentioning(titles, r[i]) >= TitlesMentioning(titles, r[j]))
              && (forall i :: TopicsTakenFreely <= i < |r| ==> TitlesMentioning(titles, r[i]) >= RepeatCount)
              && (forall kw, i :: kw in ResearchKeywords && kw !in r && 0 <= i < |r| ==>
                    TitlesMentioning(titles, r[i]) >= TitlesMentioning(titles, kw))
              && (forall kw :: kw in ResearchKeywords && TitlesMentioning(titles, kw) >= RepeatCount ==>
                    kw in r || |r| == MaxTopics)
              && (|r| < TopicsTakenFreely ==>
                    forall kw :: kw in ResearchKeywords && TitlesMentioning(titles, kw) >= 1 ==> kw in r)
  {
    ExtractTopicsSound(titles);
    ExtractTopicsTop(titles);
  }


  lemma TallyTitleSnoc(counts: Dict<nat>, title: string, keywords: seq<string>, matches: (string, string) -> bool, j: nat)
    requires j < |keywords|
    ensures TallyTitle(counts, title, keywords[..j + 1], matches) ==
              Bump(TallyTitle(counts, title, keywords[..j], matches), keywords[j], matches(title, keywords[j]))
  {
    assert keywords[..j + 1][..j] == keywords[..j];
  }

  lemma TallySnoc(titles: seq<string>, keywords: seq<string>, matches: (string, string) -> bool, i: nat)
    requires i < |titles|
    ensures Tally(titles[..i + 1], keywords, matches) == TallyTitle(Tally(titles[..i], keywords, matches), titles[i], keywords, matches)
  {
    assert titles[..i + 1][..i] == titles[..i];
  }

  /** The counting loops of `_extract_topics_from_titles`, over the titles of `papers` and
      the keywords in `keywords`. */
  method CountKeywords(papers: seq<Entry>, keywords: seq<string>) returns (counts: Dict<nat>)
    ensures counts == Tally(TitlesOf(papers), keywords, Mentions)
  {
    ghost var titles := TitlesOf(papers);
    counts := [];
    for i := 0 to |papers|
      invariant counts == Tally(titles[..i], keywords, Mentions)
    {
      var title := Lower(papers[i].title.GetOr(""));
      ghost var before := counts;
      for j := 0 to |keywords|
        invariant counts == TallyTitle(before, titles[i], keywords[..j], Mentions)
      {
        var keyword := keywords[j];
        TallyTitleSnoc(before, titles[i], keywords, Mentions, j);
        counts := Bump(counts, keyword, IsSubstring(Lower(keyword), title));
      }
      assert keywords[..|keywords|] == keywords;
      TallySnoc(titles, keywords, Mentions, i);
    }
    assert titles[..|papers|] == titles;
  }

  /** The selection loop of `_extract_topics_from_titles`, with its early exit. */
  method SelectKeywords(sorted: seq<(string, nat)>) returns (result: seq<string>)
    ensures result == Keys(Select(sorted, 0))
  {
    result := [];
    var i := 0;
    while i < |sorted|
      invariant 0 <= i <= |sorted|
      invariant |result| < MaxTopics
      invariant result + Keys(Select(sorted[i..], |result|)) == Keys(Select(sorted, 0))
    {
      var (keyword, count) := sorted[i];
      SelectStep(sorted, i, result);
      if count >= RepeatCount || |result| < TopicsTakenFreely {
        result := result + [keyword];
      }
      if |result| >= MaxTopics {
        break;
      }
      i := i + 1;
    }
  }

  /** One pass of the selection loop keeps the taken keywords a prefix of the selection. */
  lemma SelectStep(sorted: seq<(string, nat)>, i: nat, result: seq<string>)
    requires i < |sorted| && |result| < MaxTopics
    requires result + Keys(Select(sorted[i..], |result|)) == Keys(Select(sorted, 0))
    ensures var next := if sorted[i].1 >= RepeatCount || |result| < TopicsTakenFreely then result + [sorted[i].0] else result;
            && (|next| >= MaxTopics ==> next == Keys(Select(sorted, 0)))
            && (|next| < MaxTopics ==> next + Keys(Select(sorted[i + 1..], |next|)) == Keys(Select(sorted, 0)))
  {
    assert sorted[i..][1..] == sorted[i + 1..];
    if sorted[i].1 >= RepeatCount || |result| < TopicsTakenFreely {
      if |result| + 1 < MaxTopics {
        KeysCons(sorted[i], Select(sorted[i + 1..], |result| + 1));
      }
    }
  }

  /** `_extract_topics_from_titles` over the valid entries. */
  method ExtractTopicsFromTitles(papers: seq<Entry>) returns (topics: seq<string>)
    ensures topics == ExtractTopics(TitlesOf(papers))
  {
    var counts := CountKeywords(papers, ResearchKeywords);
    var sorted := SortDesc(counts, ByCount);
    var result := SelectKeywords(sorted);
    topics := if result == [] then [DefaultTopic] else result;
  }

  lemma KeysCons<V>(x: (string, V), s: seq<(string, V)>)
    ensures Keys([x] + s) == [x.0] + Keys(s)
  {
  }

  // ---------------------------------------------------------------------------
  // Connection test
  // ---------------------------------------------------------------------------

  /** The verdict of `test_connection` for a response with status `status` and body `text`:
      success exactly on 200, a specific message for 401 and 429, otherwise the status and
      the first 100 characters of the body. */
  function TestConnection(status: int, text: string): (result: (bool, string))
    ensures result.0 <==> status == 200
    ensures status == 200 ==> result.1 == "API key is valid"
    ensures status == 401 ==> result.1 == "Invalid API key or unauthorized access. Status: 401"
    ensures status == 429 ==> result.1 == "Rate limit exceeded - please wait and try again"
    ensures status != 200 && status != 401 && status != 429 ==>
              result.1 == "HTTP Error " + IntToString(status) + ": " + Take(text, 100)
  {
    if status == 200 then (true, "API key is valid")
    else if status == 401 then (false, "Invalid API key or unauthorized access. Status: " + IntToString(status))
    else if status == 429 then (false, "Rate limit exceeded - please wait and try again")
    else (false, "HTTP Error " + IntToString(status) + ": " + Take(text, 100))
  }
}
