/** The batch pre-cache script. It fetches every professor that has a Scopus id, merges the
    fetched data into the scraped record, writes the aggregate cache with its metadata, and
    pre-generates one knowledge graph per cached professor. File contents, the clock, the
    API responses and the outcome of each graph file write are parameters. */
module FetchAll {
  import opened Wrappers
  import opened Seqs
  import opened Dicts
  import opened Records
  import ScopusClient
  import GraphBuilder
  import App

  // ---------------------------------------------------------------------------
  // Loading the scraped professors
  // ---------------------------------------------------------------------------

  /** `load_basic_professors`: the `professors` list of the scraped file. It is `[]` when the
      file does not exist or has no such key. */
  function LoadBasicProfessors(basicFile: Option<BasicFile>): (profs: seq<ProfessorRecord>)
    ensures basicFile.None? ==> profs == []
    ensures basicFile.Some? && basicFile.value.professors.None? ==> profs == []
    ensures basicFile.Some? && basicFile.value.professors.Some? ==> profs == basicFile.value.professors.value
  {
    if basicFile.None? then [] else basicFile.value.professors.GetOr([])
  }

  // ---------------------------------------------------------------------------
  // The fetch loop
  // ---------------------------------------------------------------------------

  predicate HasScopusId(p: ProfessorRecord) {
    Truthy(p.scopusId)
  }

  /** `professors_with_scopus`: the professors with a non-empty Scopus id, in order. */
  function Attempted(professors: seq<ProfessorRecord>): seq<ProfessorRecord> {
    Filter(professors, HasScopusId)
  }

  function IdOf(p: ProfessorRecord): string {
    p.scopusId.GetOr("")
  }

  /** What the client returns for professor `p`. `fetch(id)` stands for
      `get_professor_complete_data(id)`, that is `ScopusClient.CompleteData(id, r)` on the
      API's response `r` for that author. */
  function Fetch(fetch: string -> Option<ProfessorRecord>, p: ProfessorRecord): Option<ProfessorRecord> {
    fetch(IdOf(p))
  }

  /** The stored record: every scraped field, with the fetched topics, papers and counts
      (`[]` and 0 when absent) and the fetch time. */
  function Merge(p: ProfessorRecord, data: ProfessorRecord, now: string): (m: ProfessorRecord)
    ensures m.(topics := p.topics, papers := p.papers, documentCount := p.documentCount,
               citationCount := p.citationCount, fetchedAt := p.fetchedAt) == p
    ensures m.topics == Some(data.topics.GetOr([])) && m.papers == Some(data.papers.GetOr([]))
    ensures m.documentCount == Some(data.documentCount.GetOr(0)) && m.citationCount == Some(data.citationCount.GetOr(0))
    ensures m.fetchedAt == Some(now)
  {
    p.(topics := Some(data.topics.GetOr([])),
       papers := Some(data.papers.GetOr([])),
       documentCount := Some(data.documentCount.GetOr(0)),
       citationCount := Some(data.citationCount.GetOr(0)),
       fetchedAt := Some(now))
  }

  /** `scopus_data_cache[scopus_id] = complete_data`. */
  function Store(cache: Dict<ProfessorRecord>, p: ProfessorRecord, data: ProfessorRecord, now: string): Dict<ProfessorRecord> {
    Put(cache, IdOf(p), Merge(p, data, now))
  }

  /** `scopus_data_cache` after the loop over `attempts`. `clock(i)` is the time of the i-th
      attempt, counted from 1. A later fetch of the same id replaces the earlier record. */
  function Fetched(attempts: seq<ProfessorRecord>, fetch: string -> Option<ProfessorRecord>,
                   clock: nat -> string): Dict<ProfessorRecord>
    decreases |attempts|
  {
    if attempts == [] then []
    else
      var n := |attempts| - 1;
      var prev := Fetched(attempts[..n], fetch, clock);
      match Fetch(fetch, attempts[n])
      case None => prev
      case Some(d) => Store(prev, attempts[n], d, clock(n + 1))
  }

  /** The number of attempts whose fetch returned data. */
  function Successes(attempts: seq<ProfessorRecord>, fetch: string -> Option<ProfessorRecord>): (n: nat)
    ensures n <= |attempts|
    decreases |attempts|
  {
    if attempts == [] then 0
    else Successes(attempts[..|attempts| - 1], fetch) + (if Fetch(fetch, attempts[|attempts| - 1]).Some? then 1 else 0)
  }

  /** What `fetch_all_scopus_data` returns. It is empty without an API key or when the
      connection test fails, and otherwise holds the fetch loop's results. */
  function FetchResult(apiKey: Option<string>, status: int, text: string, professors: seq<ProfessorRecord>,
                       fetch: string -> Option<ProfessorRecord>, clock: nat -> string): Dict<ProfessorRecord>
  {
    if !Truthy(apiKey) || !ScopusClient.TestConnection(status, text).0 then []
    else Fetched(Attempted(professors), fetch, clock)
  }

  /** `fetch_all_scopus_data`. `status` and `text` are the connection test's response. Each
      attempt counts as a success or a failure. Without a key or a connection nothing is
      attempted. */
  method FetchAllScopusData(apiKey: Option<string>, status: int, text: string, professors: seq<ProfessorRecord>,
                            fetch: string -> Option<ProfessorRecord>, clock: nat -> string)
    returns (cache: Dict<ProfessorRecord>, successful: nat, failed: nat)
    ensures cache == FetchResult(apiKey, status, text, professors, fetch, clock)
    ensures !Truthy(apiKey) || !ScopusClient.TestConnection(status, text).0 ==> successful == 0 && failed == 0
    ensures Truthy(apiKey) && ScopusClient.TestConnection(status, text).0 ==>
              successful == Successes(Attempted(professors), fetch) &&
              successful + failed == |Attempted(professors)|
  {
    if !Truthy(apiKey) {
      return [], 0, 0;
    }
    var connection := ScopusClient.TestConnection(status, text);
    if !connection.0 {
      return [], 0, 0;
    }
    var withScopus := Filter(professors, HasScopusId);
    cache, successful, failed := [], 0, 0;
    for i := 0 to |withScopus|
      invariant cache == Fetched(withScopus[..i], fetch, clock)
      invariant successful == Successes(withScopus[..i], fetch)
      invariant successful + failed == i
    {
      var professor := withScopus[i];
      var scopusId := IdOf(professor);
      var data := fetch(scopusId);
      FetchStep(withScopus, fetch, clock, i, cache, successful);
      if data.Some? {
        cache := Store(cache, professor, data.value, clock(i + 1));
        successful := successful + 1;
      } else {
        failed := failed + 1;
      }
    }
    assert withScopus[..|withScopus|] == withScopus;
  }

  /** One more attempt: a fetch that returns data stores it and counts a success. */
  lemma FetchStep(attempts: seq<ProfessorRecord>, fetch: string -> Option<ProfessorRecord>, clock: nat -> string,
                  i: nat, cache: Dict<ProfessorRecord>, successful: nat)
    requires i < |attempts|
    requires cache == Fetched(attempts[..i], fetch, clock) && successful == Successes(attempts[..i], fetch)
    ensures var data := fetch(IdOf(attempts[i]));
            data.Some? ==> Store(cache, attempts[i], data.value, clock(i + 1)) == Fetched(attempts[..i + 1], fetch, clock)
                           && successful + 1 == Successes(attempts[..i + 1], fetch)
    ensures var data := fetch(IdOf(attempts[i]));
            data.None? ==> cache == Fetched(attempts[..i + 1], fetch, clock)
                           && successful == Successes(attempts[..i + 1], fetch)
  {
    assert attempts[..i + 1][..i] == attempts[..i];
  }

  lemma StoreLookup(cache: Dict<ProfessorRecord>, p: ProfessorRecord, data: ProfessorRecord, now: string, k: string)
    ensures Lookup(Store(cache, p, data, now), k) == if k == IdOf(p) then Some(Merge(p, data, now)) else Lookup(cache, k)
  {
  }

  /** A cached id is the id of an attempt whose fetch returned data, and every such id is
      cached. */
  lemma {:induction false} FetchedKeys(attempts: seq<ProfessorRecord>, fetch: string -> Option<ProfessorRecord>,
                                       clock: nat -> string, id: string)
    ensures id in Keys(Fetched(attempts, fetch, clock)) <==>
              exists p :: p in attempts && IdOf(p) == id && Fetch(fetch, p).Some?
    decreases |attempts|
  {
    if attempts != [] {
      FetchedKeys(attempts[..|attempts| - 1], fetch, clock, id);
      FetchedKeysStep(attempts, fetch, clock, id);
      FetchedWitnessStep(attempts, fetch, id);
    }
  }

  /** The last attempt adds its id to the cache exactly when its fetch returns data. */
  lemma FetchedKeysStep(attempts: seq<ProfessorRecord>, fetch: string -> Option<ProfessorRecord>,
                        clock: nat -> string, id: string)
    requires attempts != []
    ensures var n := |attempts| - 1;
            id in Keys(Fetched(attempts, fetch, clock)) <==>
              id in Keys(Fetched(attempts[..n], fetch, clock)) || (IdOf(attempts[n]) == id && Fetch(fetch, attempts[n]).Some?)
  {
  }

  /** An attempt with id `id` and data is the last one or an earlier one. */
  lemma FetchedWitnessStep(attempts: seq<ProfessorRecord>, fetch: string -> Option<ProfessorRecord>, id: string)
    requires attempts != []
    ensures var n := |attempts| - 1;
            (exists p :: p in attempts && IdOf(p) == id && Fetch(fetch, p).Some?) <==>
              (exists p :: p in attempts[..n] && IdOf(p) == id && Fetch(fetch, p).Some?) ||
              (IdOf(attempts[n]) == id && Fetch(fetch, attempts[n]).Some?)
  {
    var n := |attempts| - 1;
    assert attempts == attempts[..n] + [attempts[n]] by {
      Seqs.SplitLast(attempts);
    }
    if exists p :: p in attempts && IdOf(p) == id && Fetch(fetch, p).Some? {
      var p :| p in attempts && IdOf(p) == id && Fetch(fetch, p).Some?;
      if p != attempts[n] {
        assert p in attempts[..n];
      }
    }
  }

  /** Every cached record merges an attempt that has its id with that attempt's fetched
      data and time. */
  lemma {:induction false} FetchedValues(attempts: seq<ProfessorRecord>, fetch: string -> Option<ProfessorRecord>,
                                         clock: nat -> string, k: string)
    ensures Lookup(Fetched(attempts, fetch, clock), k).Some? ==>
              exists j :: 0 <= j < |attempts| && IdOf(attempts[j]) == k && Fetch(fetch, attempts[j]).Some? &&
                          Lookup(Fetched(attempts, fetch, clock), k).value ==
                            Merge(attempts[j], Fetch(fetch, attempts[j]).value, clock(j + 1))
    decreases |attempts|
  {
    if attempts != [] {
      var n := |attempts| - 1;
      var pre, last := attempts[..n], attempts[n];
      var prev := Fetched(pre, fetch, clock);
      FetchedValues(pre, fetch, clock, k);
      if Fetch(fetch, last).Some? {
        StoreLookup(prev, last, Fetch(fetch, last).value, clock(n + 1), k);
      }
      if Lookup(Fetched(attempts, fetch, clock), k).Some? && !(Fetch(fetch, last).Some? && k == IdOf(last)) {
        assert Lookup(Fetched(attempts, fetch, clock), k) == Lookup(prev, k);
        var j :| 0 <= j < |pre| && IdOf(pre[j]) == k && Fetch(fetch, pre[j]).Some? &&
                 Lookup(prev, k).value == Merge(pre[j], Fetch(fetch, pre[j]).value, clock(j + 1));
        assert pre[j] == attempts[j];
      }
    }
  }

  /** There are no more cached records than successful fetches. */
  lemma {:induction false} FetchedSize(attempts: seq<ProfessorRecord>, fetch: string -> Option<ProfessorRecord>,
                                       clock: nat -> string)
    ensures |Fetched(attempts, fetch, clock)| <= Successes(attempts, fetch)
    decreases |attempts|
  {
    if attempts != [] {
      FetchedSize(attempts[..|attempts| - 1], fetch, clock);
    }
  }

  /** The cache holds exactly the Scopus ids of the professors whose fetch returned data.
      There are no more cached records than successes, and every cached record is a merge
      with fetched data. */
  lemma FetchedCache(professors: seq<ProfessorRecord>, fetch: string -> Option<ProfessorRecord>, clock: nat -> string)
    ensures forall id :: id in Keys(Fetched(Attempted(professors), fetch, clock)) <==>
              exists p :: p in professors && HasScopusId(p) && IdOf(p) == id && Fetch(fetch, p).Some?
    ensures |Fetched(Attempted(professors), fetch, clock)| <= Successes(Attempted(professors), fetch)
    ensures forall x :: x in Fetched(Attempted(professors), fetch, clock) ==>
              exists p :: p in professors && HasScopusId(p) && IdOf(p) == x.0 && Fetch(fetch, p).Some? &&
                          exists i :: i > 0 && x.1 == Merge(p, Fetch(fetch, p).value, clock(i))
  {
    var attempts := Attempted(professors);
    var cache := Fetched(attempts, fetch, clock);
    FetchedSize(attempts, fetch, clock);
    forall p ensures p in attempts <==> p in professors && HasScopusId(p) {
      if p in professors && HasScopusId(p) {
        var i :| 0 <= i < |professors| && professors[i] == p;
      }
      if p in attempts {
        var i :| 0 <= i < |attempts| && attempts[i] == p;
      }
    }
    forall id ensures id in Keys(cache) <==> exists p :: p in professors && HasScopusId(p) && IdOf(p) == id && Fetch(fetch, p).Some? {
      FetchedKeys(attempts, fetch, clock, id);
    }
    forall x | x in cache
      ensures exists p :: p in professors && HasScopusId(p) && IdOf(p) == x.0 && Fetch(fetch, p).Some? &&
                          exists i :: i > 0 && x.1 == Merge(p, Fetch(fetch, p).value, clock(i))
    {
      LookupMember(cache, x);
      FetchedValues(attempts, fetch, clock, x.0);
      var j :| 0 <= j < |attempts| && IdOf(attempts[j]) == x.0 && Fetch(fetch, attempts[j]).Some? &&
               x.1 == Merge(attempts[j], Fetch(fetch, attempts[j]).value, clock(j + 1));
      assert attempts[j] in attempts;
    }
  }

  // ---------------------------------------------------------------------------
  // The aggregate cache file
  // ---------------------------------------------------------------------------

  /** The sum of `len(p.get('papers', []))` over the records. */
  function PaperTotal(profs: seq<(string, ProfessorRecord)>): nat
    decreases |profs|
  {
    if profs == [] then 0 else |profs[0].1.papers.GetOr([])| + PaperTotal(profs[1..])
  }

  /** `sum(p.get('citation_count', 0) for p in scopus_data_cache.values())`. */
  function CitationTotal(records: seq<ProfessorRecord>): int
    decreases |records|
  {
    if records == [] then 0 else records[0].citationCount.GetOr(0) + CitationTotal(records[1..])
  }

  /** The saved citation total, summed over the values of the cache, is the total the
      dashboard shows for the same records. */
  lemma {:induction false} CitationTotalIsDashboardTotal(profs: seq<(string, ProfessorRecord)>)
    ensures CitationTotal(Values(profs)) == App.TotalCitations(profs)
    decreases |profs|
  {
    if profs != [] {
      assert Values(profs)[1..] == Values(profs[1..]);
      CitationTotalIsDashboardTotal(profs[1..]);
    }
  }

  /** The `metadata` object `save_scopus_cache` writes: the time, the number of professors,
      and the paper and citation totals the dashboard computes for the same records. */
  function MetadataOf(cache: Dict<ProfessorRecord>, now: string): (m: Metadata)
    ensures m.fetchedAt == Some(now) && m.professorCount == Some(|cache|)
    ensures m.totalPapers == Some(PaperTotal(cache))
    ensures m.totalCitations == Some(App.TotalCitations(cache))
  {
    CitationTotalIsDashboardTotal(cache);
    Metadata(Some(now), Some(|cache|), Some(PaperTotal(cache)), Some(CitationTotal(Values(cache))))
  }

  /** The file `save_scopus_cache` writes. Loaded as the flat cache file, it gives back the
      cache and its metadata. */
  function SaveScopusCache(cache: Dict<ProfessorRecord>, now: string): (f: CacheFile)
    ensures App.LoadScopusCache(None, Some(f)) == Some((cache, MetadataOf(cache, now)))
  {
    CacheFile(Some(cache), Some(MetadataOf(cache, now)))
  }

  /** When every record has a `papers` list, the saved paper total equals the dashboard's
      total paper count. */
  lemma {:induction false} PaperTotalIsDashboardTotal(profs: seq<(string, ProfessorRecord)>)
    requires forall i :: 0 <= i < |profs| ==> profs[i].1.papers.Some?
    ensures PaperTotal(profs) == App.TotalPaperCount(profs)
    decreases |profs|
  {
    if profs != [] {
      PaperTotalIsDashboardTotal(profs[1..]);
    }
  }

  /** The dashboard, with no topic-grouped file present, reads back the saved professors
      and metadata. The metadata then counts the professors, and its paper and citation
      totals are the dashboard's own totals over the fetched records. */
  lemma SavedCacheReadBack(professors: seq<ProfessorRecord>, fetch: string -> Option<ProfessorRecord>,
                           clock: nat -> string, now: string)
    ensures var cache := Fetched(Attempted(professors), fetch, clock);
            && App.LoadScopusCache(None, Some(SaveScopusCache(cache, now))) == Some((cache, MetadataOf(cache, now)))
            && MetadataOf(cache, now).professorCount == Some(|cache|)
            && MetadataOf(cache, now).totalPapers == Some(App.TotalPaperCount(cache))
            && MetadataOf(cache, now).totalCitations == Some(App.TotalCitations(cache))
  {
    var cache := Fetched(Attempted(professors), fetch, clock);
    forall i | 0 <= i < |cache| ensures cache[i].1.papers.Some? {
      LookupMember(cache, cache[i]);
      FetchedValues(Attempted(professors), fetch, clock, cache[i].0);
    }
    PaperTotalIsDashboardTotal(cache);
  }

  // ---------------------------------------------------------------------------
  // Graph generation
  // ---------------------------------------------------------------------------

  /** `professors_by_topics`: the `professors` mapping of the topic-grouped file, `{}` when
      the file does not exist. */
  function TopicGroupsSource(topicsFile: Option<CacheFile>): Dict<ProfessorRecord> {
    if topicsFile.Some? then topicsFile.value.professors.GetOr([]) else []
  }

  /** The merge at the top of the loop. A professor listed in the topic file gets its
      `topic_groups` (`{}` when absent). Any other professor is left as it is. */
  function AttachTopicGroups(id: string, p: ProfessorRecord, byTopics: Dict<ProfessorRecord>): (q: ProfessorRecord)
    ensures Lookup(byTopics, id).Some? <==> id in Keys(byTopics)
    ensures id in Keys(byTopics) ==> q == p.(topicGroups := Some(Lookup(byTopics, id).value.topicGroups.GetOr([])))
    ensures id !in Keys(byTopics) ==> q == p
  {
    LookupSome(byTopics, id);
    if id in Keys(byTopics) then p.(topicGroups := Some(Lookup(byTopics, id).value.topicGroups.GetOr([]))) else p
  }

  /** The graphs written, in cache order: one for each professor whose file write
      succeeds, built by `build` from the record after the merge. A failed write skips that
      professor only. */
  function Graphs(cache: seq<(string, ProfessorRecord)>, byTopics: Dict<ProfessorRecord>, writes: string -> bool,
                  build: ProfessorRecord -> GraphBuilder.GraphState): seq<(string, GraphBuilder.GraphState)>
    decreases |cache|
  {
    if cache == [] then []
    else
      var n := |cache| - 1;
      var prev := Graphs(cache[..n], byTopics, writes, build);
      var (id, p) := cache[n];
      if writes(id) then prev + [(id, build(AttachTopicGroups(id, p, byTopics)))] else prev
  }

  /** The records whose graph file is written. */
  function Written(writes: string -> bool): ((string, ProfessorRecord)) -> bool {
    (e: (string, ProfessorRecord)) => writes(e.0)
  }

  /** One graph per record, in order, each built from the record. */
  function GraphsOf(records: seq<(string, ProfessorRecord)>, build: ProfessorRecord -> GraphBuilder.GraphState)
    : (graphs: seq<(string, GraphBuilder.GraphState)>)
    ensures |graphs| == |records|
    ensures forall i :: 0 <= i < |records| ==> graphs[i] == (records[i].0, build(records[i].1))
  {
    seq(|records|, i requires 0 <= i < |records| => (records[i].0, build(records[i].1)))
  }

  /** For a `build` that ignores `topic_groups`, the graphs are, in cache order, those of
      the records whose write succeeds. */
  lemma {:induction false} GraphsInOrder(cache: seq<(string, ProfessorRecord)>, byTopics: Dict<ProfessorRecord>,
                                         writes: string -> bool, build: ProfessorRecord -> GraphBuilder.GraphState)
    requires forall p: ProfessorRecord, g :: build(p.(topicGroups := g)) == build(p)
    ensures Graphs(cache, byTopics, writes, build) == GraphsOf(Filter(cache, Written(writes)), build)
    decreases |cache|
  {
    if cache != [] {
      var n := |cache| - 1;
      GraphsInOrder(cache[..n], byTopics, writes, build);
      var (id, p) := cache[n];
      var q := AttachTopicGroups(id, p, byTopics);
      assert q == p.(topicGroups := q.topicGroups);
      assert build(q) == build(p);
      assert cache[..n] + [cache[n]] == cache;
      FilterSnoc(cache[..n], cache[n], Written(writes));
    }
  }

  /** For a `build` that ignores `topic_groups`: the graphs written are exactly those of the
      professors whose write succeeds, each built from the cached record itself, so every
      professor is handled whatever happened to the ones before it. */
  lemma GraphsOfRecords(cache: seq<(string, ProfessorRecord)>, byTopics: Dict<ProfessorRecord>,
                          writes: string -> bool, build: ProfessorRecord -> GraphBuilder.GraphState)
    requires forall p: ProfessorRecord, g :: build(p.(topicGroups := g)) == build(p)
    ensures Graphs(cache, byTopics, writes, build) == GraphsOf(Filter(cache, Written(writes)), build)
    ensures |Graphs(cache, byTopics, writes, build)| <= |cache|
    ensures forall x :: x in Graphs(cache, byTopics, writes, build) <==>
              exists i :: 0 <= i < |cache| && writes(cache[i].0) && x == (cache[i].0, build(cache[i].1))
  {
    GraphsInOrder(cache, byTopics, writes, build);
    var written := Filter(cache, Written(writes));
    forall x ensures x in GraphsOf(written, build) <==>
                    exists i :: 0 <= i < |cache| && writes(cache[i].0) && x == (cache[i].0, build(cache[i].1))
    {
      if x in GraphsOf(written, build) {
        var j :| 0 <= j < |written| && GraphsOf(written, build)[j] == x;
        assert Written(writes)(written[j]);
        var i :| 0 <= i < |cache| && cache[i] == written[j];
      }
      if exists i :: 0 <= i < |cache| && writes(cache[i].0) && x == (cache[i].0, build(cache[i].1)) {
        var i :| 0 <= i < |cache| && writes(cache[i].0) && x == (cache[i].0, build(cache[i].1));
        assert Written(writes)(cache[i]);
        var j :| 0 <= j < |written| && written[j] == cache[i];
        assert GraphsOf(written, build)[j] == x;
      }
    }
  }

  /** The pre-generated graphs are the graphs of the cached records: the merged
      `topic_groups` never change a graph, because the builder reads only `papers`. */
  lemma GraphsCorrect(cache: seq<(string, ProfessorRecord)>, byTopics: Dict<ProfessorRecord>, writes: string -> bool)
    ensures Graphs(cache, byTopics, writes, GraphBuilder.BuildGraph)
            == GraphsOf(Filter(cache, Written(writes)), GraphBuilder.BuildGraph)
    ensures |Graphs(cache, byTopics, writes, GraphBuilder.BuildGraph)| <= |cache|
    ensures forall x :: x in Graphs(cache, byTopics, writes, GraphBuilder.BuildGraph) <==>
              exists i :: 0 <= i < |cache| && writes(cache[i].0) && x == (cache[i].0, GraphBuilder.BuildGraph(cache[i].1))
  {
    forall p: ProfessorRecord, g ensures GraphBuilder.BuildGraph(p.(topicGroups := g)) == GraphBuilder.BuildGraph(p) {
      GraphBuilder.BuildGraphUnaffectedByTopicGroups(p, g);
    }
    GraphsOfRecords(cache, byTopics, writes, GraphBuilder.BuildGraph);
  }

  /** One more professor: its graph is appended when its write succeeds. */
  lemma GraphsSnoc(cache: seq<(string, ProfessorRecord)>, byTopics: Dict<ProfessorRecord>, writes: string -> bool,
                   build: ProfessorRecord -> GraphBuilder.GraphState, i: nat,
                   graphs: seq<(string, GraphBuilder.GraphState)>)
    requires i < |cache| && graphs == Graphs(cache[..i], byTopics, writes, build)
    ensures var (id, p) := cache[i];
            (if writes(id) then graphs + [(id, build(AttachTopicGroups(id, p, byTopics)))] else graphs)
            == Graphs(cache[..i + 1], byTopics, writes, build)
  {
    assert cache[..i + 1][..i] == cache[..i];
  }

  /** `generate_all_graphs`. `updated` is the cache after the in-place merge of each
      record's `topic_groups`. `graphs` lists each written graph file by Scopus id. */
  method GenerateAllGraphs(cache: Dict<ProfessorRecord>, topicsFile: Option<CacheFile>, writes: string -> bool)
    returns (updated: seq<(string, ProfessorRecord)>, graphs: seq<(string, GraphBuilder.GraphState)>)
    ensures |updated| == |cache|
    ensures forall i :: 0 <= i < |cache| ==>
              updated[i] == (cache[i].0, AttachTopicGroups(cache[i].0, cache[i].1, TopicGroupsSource(topicsFile)))
    ensures graphs == Graphs(cache, TopicGroupsSource(topicsFile), writes, GraphBuilder.BuildGraph)
  {
    var byTopics: Dict<ProfessorRecord> := if topicsFile.Some? then topicsFile.value.professors.GetOr([]) else [];
    assert cache[0..] == cache;
    var builder := new GraphBuilder.KnowledgeGraphBuilder();
    updated := cache;
    graphs := [];
    for i := 0 to |cache|
      invariant fresh(builder.graph)
      invariant |updated| == |cache|
      invariant forall j :: 0 <= j < i ==> updated[j] == (cache[j].0, AttachTopicGroups(cache[j].0, cache[j].1, byTopics))
      invariant forall j :: i <= j < |cache| ==> updated[j] == cache[j]
      invariant graphs == Graphs(cache[..i], byTopics, writes, GraphBuilder.BuildGraph)
    {
      var scopusId, professorData := cache[i].0, cache[i].1;
      GraphsSnoc(cache, byTopics, writes, GraphBuilder.BuildGraph, i, graphs);
      if scopusId in Keys(byTopics) {
        professorData := AttachTopicGroups(scopusId, professorData, byTopics);
        updated := updated[i := (scopusId, professorData)];
      }
      assert professorData == AttachTopicGroups(scopusId, cache[i].1, byTopics);
      builder.BuildProfessorGraph(professorData);
      var graph := builder.graph.State();
      if writes(scopusId) {
        graphs := graphs + [(scopusId, graph)];
      }
    }
    assert cache[..|cache|] == cache;
  }

  // ---------------------------------------------------------------------------
  // The script
  // ---------------------------------------------------------------------------

  /** How `main` ends. */
  datatype Outcome =
    | MissingApiKey
    | NoProfessors
    | NoDataFetched
    | Completed(saved: CacheFile, graphs: seq<(string, GraphBuilder.GraphState)>)

  /** `main` as a value: check the key, load the professors, fetch, then save the cache and
      generate the graphs. */
  function Pipeline(apiKey: Option<string>, basicFile: Option<BasicFile>, status: int, text: string,
                    fetch: string -> Option<ProfessorRecord>, clock: nat -> string, now: string,
                    topicsFile: Option<CacheFile>, writes: string -> bool): Outcome
  {
    if !Truthy(apiKey) then MissingApiKey
    else
      var professors := LoadBasicProfessors(basicFile);
      if professors == [] then NoProfessors
      else
        var cache := FetchResult(apiKey, status, text, professors, fetch, clock);
        if cache == [] then NoDataFetched
        else Completed(SaveScopusCache(cache, now), Graphs(cache, TopicGroupsSource(topicsFile), writes, GraphBuilder.BuildGraph))
  }

  /** The script stops before fetching without an API key, and before fetching or saving
      without professors. It saves nothing when no professor's fetch returned data, which
      includes a failed connection test. When it completes, it saved the fetched cache. */
  lemma PipelineOutcome(apiKey: Option<string>, basicFile: Option<BasicFile>, status: int, text: string,
                        fetch: string -> Option<ProfessorRecord>, clock: nat -> string, now: string,
                        topicsFile: Option<CacheFile>, writes: string -> bool)
    ensures var r := Pipeline(apiKey, basicFile, status, text, fetch, clock, now, topicsFile, writes);
            var professors := LoadBasicProfessors(basicFile);
            && (r == MissingApiKey <==> !Truthy(apiKey))
            && (r == NoProfessors <==> Truthy(apiKey) && professors == [])
            && (r.Completed? <==>
                  Truthy(apiKey) && ScopusClient.TestConnection(status, text).0 &&
                  exists p :: p in professors && HasScopusId(p) && Fetch(fetch, p).Some?)
            && (r.Completed? ==>
                  r.saved == SaveScopusCache(Fetched(Attempted(professors), fetch, clock), now))
  {
    var professors := LoadBasicProfessors(basicFile);
    FetchedCache(professors, fetch, clock);
    var cache := Fetched(Attempted(professors), fetch, clock);
    if exists p :: p in professors && HasScopusId(p) && Fetch(fetch, p).Some? {
      var p :| p in professors && HasScopusId(p) && Fetch(fetch, p).Some?;
      assert IdOf(p) in Keys(cache);
    }
    if cache != [] {
      assert cache[0].0 in Keys(cache);
    }
  }

  /** `main`. `basicFile` and `topicsFile` are `None` when the file does not exist. */
  method RunPipeline(apiKey: Option<string>, basicFile: Option<BasicFile>, status: int, text: string,
                     fetch: string -> Option<ProfessorRecord>, clock: nat -> string, now: string,
                     topicsFile: Option<CacheFile>, writes: string -> bool)
    returns (outcome: Outcome)
    ensures outcome == Pipeline(apiKey, basicFile, status, text, fetch, clock, now, topicsFile, writes)
  {
    if !Truthy(apiKey) {
      return MissingApiKey;
    }
    var professors := LoadBasicProfessors(basicFile);
    if professors == [] {
      return NoProfessors;
    }
    var cache, _, _ := FetchAllScopusData(apiKey, status, text, professors, fetch, clock);
    if cache == [] {
      return NoDataFetched;
    }
    var saved := SaveScopusCache(cache, now);
    var _, graphs := GenerateAllGraphs(cache, topicsFile, writes);
    outcome := Completed(saved, graphs);
  }
}
