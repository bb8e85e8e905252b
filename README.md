# Professor knowledge graph: a verified Dafny model of its deterministic core

The system scrapes professor records from a faculty web site and fetches each professor's
papers from the Scopus search API. For each professor it builds a star-shaped knowledge graph
(professor → research topics, professor → papers). A Streamlit dashboard shows the records,
a topic index and the graphs. This project models the logic around that I/O and proves what
the code promises about it. It covers four parts.

| Part | Source | Module | What is modelled |
|---|---|---|---|
| Query layer | `app.py` | `App` | The two record shapes: a flat `papers` list or a `topic_groups` mapping. The file-priority rule of `load_scopus_cache`. The topic distribution and the topic → professor index. The name/topic search. The per-topic paper view. |
| Graph builder | `graph_builder.py` | `GraphBuilder` | The mutable `networkx` graph, as class `NetworkGraph`. `KnowledgeGraphBuilder` with `clear_graph`, the three `add_*_node` methods, `add_edge` and `build_professor_graph`. Node styling and edge colours. |
| Scopus client | `scopus_client.py` | `ScopusClient` | The body of `get_author_data` after the response arrives. `get_professor_complete_data`. `_extract_topics_from_titles`. The status mapping of `test_connection`. |
| Batch fetcher | `fetch_all_scopus_data.py` | `FetchAll` | `load_basic_professors`. The fetch loop with its counters. The cache metadata. The `topic_groups` merge in `generate_all_graphs`. The control flow of `main`. |

Supporting modules:
- `Wrappers`: `Option`.
- `Text`: ASCII lower-casing, Python `in` on strings, `str(n)`, slicing and `join`.
- `Seqs`: filters, subsequences and a stable descending sort.
- `Dicts`: insertion-ordered Python dicts, as association lists with distinct keys.
- `Records`: the JSON records.
- `Config`: the constants of `config.py` (node colours, node sizes 60/45/35, edge colours).

Modelling choices:
- A Python dict whose iteration order matters is a `Dict<V> = seq<(string, V)>` with distinct keys. `Dicts.Put` acts like `d[k] = v`: an existing key keeps its position and a new key goes at the end.
- A JSON object is a datatype of `Option` fields. `None` means the key is absent, which is how `.get(key, default)` is read.
- Imperative code stays imperative: loops over lists and dicts are `method`s with `while` loops and invariants. Each such method is proved equal to a function, and the properties are proved as lemmas about that function.
- Graphs: `KnowledgeGraphBuilder` is a class whose `graph` field is a `NetworkGraph`. That graph holds a node map, the node insertion order and the edge list.
- I/O becomes parameters:
  - file existence and contents become `Option<...>` values;
  - the HTTP response becomes a `Response` value (status and entries);
  - the connection test becomes a status code and a body;
  - the API client in the batch fetcher becomes an oracle `fetch: string -> Option<ProfessorRecord>` that stands for `get_professor_complete_data`;
  - `datetime.now()` becomes `clock(i)` in the loop and `now` elsewhere;
  - whether writing a graph file succeeds becomes a `writes` oracle.

## Model

| member | source | states |
|---|---|---|
| App.FlattenSize | app.py:106-110 | The concatenated buckets of a `topic_groups` mapping have as many papers as the bucket sizes add up to. |
| App.FlattenMembers | app.py:118-122 | A paper is among the concatenated buckets exactly when some bucket holds it. |
| App.PaperCountOf | app.py:102-123 | For every record, the paper count equals the length of the paper list. |
| App.GetPaperCount | app.py:102-111 | Loop version. With `papers` present (even beside `topic_groups`) the count is its length. With only `topic_groups` it is the sum of bucket sizes. With neither it is 0. In every case it equals the length of `get_all_papers`. |
| App.GetAllPapers | app.py:114-123 | Loop version. It returns `papers` unchanged when present, otherwise the buckets concatenated in mapping order, otherwise the empty list. |
| App.GroupedShape | app.py:114-123 | For a record with only `topic_groups`, the papers are the concatenated buckets. The count is the sum of bucket sizes. A paper is listed exactly when it lies in the bucket of some key. |
| App.LoadScopusCache | app.py:126-140 | The result is absent exactly when neither file exists. The topic-grouped file wins when it exists, otherwise the flat file is used. A missing `professors` or `metadata` key defaults to an empty mapping. |
| App.GroupByTopic | app.py:582-594 | The reverse index has one key per distinct topic, in first-seen order. Each key maps to one entry per occurrence of that topic in a professor's `topics`, in visiting order. Each count is that number of occurrences. The counts add up to the total length of all topic lists. |
| App.TopicDistribution | app.py:305-315 | `topic_professors[t]` lists a professor's name once per occurrence of `t` in that professor's topics. `topic_count[t]` is that number. The keys are exactly the topics that occur. The counts add up to the total length of all topic lists. |
| App.OccurrencesCount | app.py:308-315 | The number of index entries under a topic is the number of times it occurs across all professors' topic lists. |
| App.OccurrencesMembers | app.py:308-315 | Professor P has an entry under topic T whenever T occurs in P's topics. |
| App.TopicsByPopularity | app.py:582-597 | The topics are sorted by non-increasing number of professors. Every topic that occurs appears once and no other topic appears. Each topic carries its full, non-empty entry list. The sort is stable: topics with the same number of professors keep their first-seen order, because the topics with any given count form the same sequence as in the unsorted first-seen index `TopicIndex`. |
| App.ProfessorRows | app.py:548-552 | There is one table row per professor, in mapping order. Each row is built from that professor's record with its defaults, including the first three topics joined by ", ". |
| App.SearchRows | app.py:555-559 | With an empty search every row is kept. Otherwise a row is kept exactly when the search text occurs in its name or its topics column, ignoring case. Kept rows stay in order. |
| App.SearchFindsProfessor | app.py:544-559 | A search text that occurs, ignoring case, in a professor's name or in one of that professor's first three topics keeps the professor's row. |
| App.PapersForTopic | app.py:670-705 | Grouped view: the papers are exactly the selected bucket, the other groups are every other key in order, and their sizes plus the bucket's add up to the total. Flat view: related and other papers partition all papers, each preserving order. A paper is related exactly when the lower-cased topic occurs in its lower-cased title. |
| App.OtherTopicsSize | app.py:692-694 | The selected bucket's size plus the other groups' total equals the size of all buckets. |
| App.OtherTopicsKeys | app.py:692 | The other groups hold exactly the keys other than the selected topic. |
| Seqs.SortDescCorrect | app.py:597 | `sorted(..., reverse=True)` by a key: the result is non-increasing, a permutation of the input, and stable (items with equal keys keep their input order). |
| Dicts.Put | app.py:311-315 | `d[k] = v`: `k` then maps to `v`, every other key keeps its value, and a new key is appended after the existing ones. |
| Dicts.LookupSome | app.py:311 | `k in d` holds exactly when a lookup of `k` finds a value, and the value found is the entry stored under `k`. |
| Dicts.SumValuesPut | app.py:313 | Replacing a count changes the sum of all counts by exactly the difference. |
| GraphBuilder.FindEdge | graph_builder.py:134-141 | The edge search finds an edge joining the two nodes in either direction, or reports that none exists. |
| GraphBuilder.WithNodeWellFormed | graph_builder.py:38-52 | Adding a node keeps the graph well formed (the order lists exactly the nodes, without repeats, and every edge joins existing nodes). It sets that node, leaves the others alone, and grows the order only for a new id. |
| GraphBuilder.WithEdgeWellFormed | graph_builder.py:134-141 | Adding an edge, which creates missing endpoint nodes, keeps the graph well formed. |
| GraphBuilder.WithEdgeSimple | graph_builder.py:134-141 | Adding an edge keeps the graph simple: an undirected pair is joined at most once, and a repeated edge replaces the old edge's attributes. |
| GraphBuilder.ProfessorNode | graph_builder.py:28-52 | The professor node has size 60 and the professor colour. Its shape is `circularImage` exactly when `image_url` is truthy, otherwise `dot`. |
| GraphBuilder.TopicNode | graph_builder.py:54-76 | A topic node is always a `dot` of size 45 in the topic colour. |
| GraphBuilder.DisplayTitle | graph_builder.py:89 | A title of at most 30 characters is shown unchanged. A longer one becomes its first 30 characters followed by "...". |
| GraphBuilder.PaperNodeSize | graph_builder.py:92 | The size is at most 50 and at least 35 for non-negative citations. It is 50 exactly when there are at least 45 citations. |
| GraphBuilder.PaperNodeSizeMonotone | graph_builder.py:92 | The paper size never decreases as citations grow. |
| GraphBuilder.DoiLink | graph_builder.py:95 | There is a link exactly when the DOI is non-empty, and it is "https://doi.org/" followed by the DOI. |
| GraphBuilder.PaperTooltipContains | graph_builder.py:97-98 | The tooltip contains the full, untruncated title, and the DOI link when there is one. |
| GraphBuilder.PaperNodeFacts | graph_builder.py:78-118 | A paper node is a `dot` with the truncated label and the citation-based size. Its tooltip holds the full title. It has a `url` exactly when the DOI is non-empty. |
| GraphBuilder.ResolveEdgeColor | graph_builder.py:131-132 | A given colour is used as is. Otherwise `EDGE_COLORS` is looked up by the lower-cased edge type, with `#94a3b8` as the default. |
| GraphBuilder.EdgeColorIgnoresCase | graph_builder.py:132 | The resolved default colour does not depend on the case of the edge type. |
| GraphBuilder.TopicIdFacts | graph_builder.py:164-166 | Topic ids `topic_{prof}_{i}` are distinct for distinct positions. They differ from the professor id and from every paper id, whatever the professor id is. |
| GraphBuilder.PaperIdFacts | graph_builder.py:171-173 | Paper ids `paper_{prof}_{i}` are distinct for distinct positions and differ from the professor id. |
| GraphBuilder.BuildGraphShape | graph_builder.py:153-180 | The graph is the professor node (id `scopus_id` or 'prof_1', name or 'Unknown'), then one topic node per topic and one paper node per paper, in input order under positional ids. It has one expertise edge (width 4) per topic, then one authored edge (width 2) per paper, and nothing else. |
| GraphBuilder.ExpectedOrderDistinct | graph_builder.py:155-173 | The professor id and all synthetic ids of one graph are pairwise distinct, whatever the professor id is. |
| GraphBuilder.BuildGraphStar | graph_builder.py:153-180 | The graph has exactly 1 + topics + papers nodes and topics + papers edges. It is well formed and simple. Every edge goes from the professor to another node. |
| GraphBuilder.ExpectedStar | graph_builder.py:163-180 | A graph with the builder's node order and edge list is a star around the professor. |
| GraphBuilder.BuildGraphIgnoresTopicGroups | graph_builder.py:170 | The builder reads `papers` only. A record with only `topic_groups` gets the professor and topic nodes and no paper node. |
| GraphBuilder.BuildGraphUnaffectedByTopicGroups | graph_builder.py:170 | Attaching or changing `topic_groups` does not change the graph. |
| GraphBuilder.NetworkGraph.Clear | graph_builder.py:25 | The graph becomes empty. |
| GraphBuilder.NetworkGraph.AddNode | graph_builder.py:38-52 | The graph becomes the old graph with this node set. |
| GraphBuilder.NetworkGraph.AddEdge | graph_builder.py:134-141 | The graph becomes the old graph with this edge added (and its missing endpoints as attribute-less nodes). |
| GraphBuilder.KnowledgeGraphBuilder.ClearGraph | graph_builder.py:23-26 | The builder's graph becomes empty. |
| GraphBuilder.KnowledgeGraphBuilder.AddProfessorNode | graph_builder.py:28-52 | The professor node is added with its style. |
| GraphBuilder.KnowledgeGraphBuilder.AddTopicNode | graph_builder.py:54-76 | The topic node is added with its style. |
| GraphBuilder.KnowledgeGraphBuilder.AddPaperNode | graph_builder.py:78-118 | The paper node is added with its label, size and tooltip, and with a `url` when there is a DOI. |
| GraphBuilder.KnowledgeGraphBuilder.AddEdge | graph_builder.py:120-141 | The edge is added with the resolved colour. |
| GraphBuilder.KnowledgeGraphBuilder.BuildProfessorGraph | graph_builder.py:153-180 | Whatever the graph held before, afterwards it is the graph determined by the record alone, so equal records give equal graphs. |
| ScopusClient.RequestCount | scopus_client.py:41-51 | The `count` parameter is `min(max_papers, 25)`, and 25 when `max_papers` is not given. |
| ScopusClient.YearOf | scopus_client.py:100 | The year is the first four characters of `prism:coverDate`, or all of it when shorter, or "" when it is absent or empty. |
| ScopusClient.TitlesOf | scopus_client.py:173-174 | One title per entry, in order, with "" for a missing `dc:title`. |
| ScopusClient.PapersOfFacts | scopus_client.py:94-104 | There is one paper record per entry, in order, built from that entry. |
| ScopusClient.ValidEntriesFacts | scopus_client.py:82 | The valid entries are, in order, exactly the entries without an `error` key. |
| ScopusClient.AuthorDataPresent | scopus_client.py:76-113 | There is a result exactly when the status is 200, the response has entries, and at least one entry has no `error` key. |
| ScopusClient.AuthorDataRecord | scopus_client.py:78-113 | `document_count` is the number of valid entries and `citation_count` the sum of their citations. `papers` has one record per valid entry, in order, with its citations, its title or 'Untitled', its year and its DOI or ''. The name comes from the first valid entry and the topics come from the titles. |
| ScopusClient.GetAuthorData | scopus_client.py:78-113 | Loop version. It computes the record (or no result) that the author-data function describes. |
| ScopusClient.CompleteData | scopus_client.py:139-147 | There is a result exactly when author data exists. It is that data with `scopus_id` set to the requested id. |
| ScopusClient.GetProfessorCompleteData | scopus_client.py:127-147 | It returns the complete data described above. |
| ScopusClient.KeywordsDistinct | scopus_client.py:161-170 | The research keyword list has no repeats. |
| ScopusClient.HitsPositive | scopus_client.py:173-178 | A keyword's count is positive exactly when some title contains it. |
| ScopusClient.TallyCount | scopus_client.py:173-178 | For a listed keyword that some title contains, the stored count is the number of titles containing it, ignoring case. Otherwise the keyword is absent. |
| ScopusClient.TallyOther | scopus_client.py:173-178 | Words outside the keyword list are never counted. |
| ScopusClient.TallyLookup | scopus_client.py:173-178 | After counting, a listed keyword that some title contains has as its count the number of titles containing it. Every other string, including a listed keyword no title contains, has no entry. |
| ScopusClient.SelectBounds | scopus_client.py:184-189 | At most 15 keywords are taken. All come from the sorted list. Every keyword past the tenth has count at least 2. |
| ScopusClient.SelectOrdered | scopus_client.py:184-189 | Selection keeps the non-increasing order and the distinctness of the sorted counts. |
| ScopusClient.ChosenCounts | scopus_client.py:173-189 | Every chosen keyword is a research keyword that at least one title mentions, with its exact number of mentioning titles. |
| ScopusClient.ChosenEmpty | scopus_client.py:173-191 | Nothing is chosen exactly when no title mentions any keyword. |
| ScopusClient.ChosenShape | scopus_client.py:181-189 | The chosen keywords number at most 15, are distinct, are in non-increasing order of count, and each one past the tenth has count at least 2. |
| ScopusClient.ExtractTopicsCorrect | scopus_client.py:149-191 | The result has between 1 and 15 topics. It is exactly ['Computer Science'] when no title mentions a keyword. Otherwise it holds distinct keywords, each mentioned by at least one title, in non-increasing order of mentions, and each past the tenth is mentioned at least twice. They are the most-mentioned keywords: each topic is mentioned at least as often as every keyword left out, a keyword mentioned at least twice is left out only when 15 were taken, and with fewer than 10 topics every mentioned keyword is a topic. |
| ScopusClient.ExtractTopicsSound | scopus_client.py:149-191 | The sound half of the extractor's contract: 1 to 15 topics, the default topic exactly when no title mentions a keyword, and otherwise distinct mentioned keywords in non-increasing order of mentions, each one past the tenth mentioned at least twice. |
| ScopusClient.ExtractTopicsPrefix | scopus_client.py:180-189 | When some keyword is mentioned, the topics are the keywords at the head of `sorted_keywords`, in that order. |
| ScopusClient.ExtractTopicsTop | scopus_client.py:180-189 | The topics are the most-mentioned keywords. Every topic is mentioned at least as often as every keyword left out. A keyword mentioned at least twice is left out only when 15 topics were taken. With fewer than 10 topics, every mentioned keyword is a topic. |
| ScopusClient.RankedFacts | scopus_client.py:173-181 | `sorted_keywords` is sorted by count and has distinct keywords. It holds every mentioned keyword with the number of titles mentioning it, and nothing else. |
| ScopusClient.ChosenTop | scopus_client.py:181-189 | The chosen pairs are a prefix of `sorted_keywords`. The selection stops before the end only when 15 are taken, or when at least 10 are taken and the next keyword is mentioned only once. |
| ScopusClient.SelectPrefix | scopus_client.py:184-189 | On pairs sorted by count, the selection loop takes a prefix. It stops early only at the 15-topic bound, or past the first 10 at the first count under 2. |
| ScopusClient.SelectSkipsRest | scopus_client.py:185-186 | Once 10 are taken, pairs whose counts are all under 2 are all skipped. |
| ScopusClient.Unchosen | scopus_client.py:184-189 | A mentioned keyword is left out only when 15 topics were taken, or when at least 10 were taken and it is mentioned once. Every chosen keyword is mentioned at least as often as it is. |
| ScopusClient.CountKeywords | scopus_client.py:172-178 | Loop version. It builds the keyword counts described by the tally function. |
| ScopusClient.SelectKeywords | scopus_client.py:184-189 | Loop version with the early `break`. It takes the same keywords as the selection function. |
| ScopusClient.ExtractTopicsFromTitles | scopus_client.py:149-191 | It returns the topics described above. |
| ScopusClient.TestConnection | scopus_client.py:210-218 | Success exactly on status 200. 401, 429 and every other status give their own failure message, the last one with the first 100 characters of the body. |
| FetchAll.LoadBasicProfessors | fetch_all_scopus_data.py:30-39 | A missing file, or a file without `professors`, gives the empty list. Otherwise the listed professors are returned. |
| FetchAll.Merge | fetch_all_scopus_data.py:96-103 | The merged record keeps every original field except `topics`, `papers`, `document_count`, `citation_count` and `fetched_at`. Those take the fetched values, defaulting to [] or 0, and the timestamp. |
| FetchAll.Successes | fetch_all_scopus_data.py:108-119 | Successes never outnumber attempts. |
| FetchAll.FetchAllScopusData | fetch_all_scopus_data.py:42-131 | Loop version. Without an API key, or when the connection test fails, nothing is attempted and both counters stay 0. Otherwise only professors with a truthy `scopus_id` are attempted, `successful` counts fetches that returned data, and `successful + failed` equals the number attempted. |
| FetchAll.FetchStep | fetch_all_scopus_data.py:94-121 | One loop step stores the merged record and counts a success when data comes back, and otherwise changes nothing but the failure count. |
| FetchAll.FetchedKeys | fetch_all_scopus_data.py:94-106 | A key is in the result exactly when it is the `scopus_id` of an attempted professor whose fetch returned data. |
| FetchAll.FetchedValues | fetch_all_scopus_data.py:96-106 | Every stored record is the merge of an attempted professor with that professor's fetched data. |
| FetchAll.FetchedSize | fetch_all_scopus_data.py:106-112 | The result has no more entries than there were successes (repeated ids overwrite). |
| FetchAll.FetchedCache | fetch_all_scopus_data.py:73-121 | The fetch loop has the key, size and value properties above, stated over the professors with a truthy `scopus_id`. |
| FetchAll.PaperTotalIsDashboardTotal | fetch_all_scopus_data.py:140 | The saved `total_papers` equals the dashboard's sum of paper counts over records that have `papers`. |
| FetchAll.CitationTotalIsDashboardTotal | fetch_all_scopus_data.py:141 | The saved `total_citations`, summed over the cache's values, equals the dashboard's total citations (app.py:245) for the same records. |
| FetchAll.MetadataOf | fetch_all_scopus_data.py:136-142 | The metadata holds the time of saving, the number of professors, the paper total and the dashboard's citation total for the cache. |
| FetchAll.SaveScopusCache | fetch_all_scopus_data.py:134-147 | The written file, loaded as the flat cache file, gives back exactly the cache and its metadata. |
| FetchAll.SavedCacheReadBack | fetch_all_scopus_data.py:134-149 | Reading the saved file back as the flat cache file gives the fetched records and the metadata. `professor_count` is the size of the cache, `total_papers` is the dashboard's total paper count and `total_citations` the dashboard's total citations over the fetched records. |
| FetchAll.AttachTopicGroups | fetch_all_scopus_data.py:183-184 | `topic_groups` is attached (defaulting to an empty mapping) exactly when the id is in the topic-file mapping. Otherwise the record is unchanged. |
| FetchAll.GraphsOfRecords | fetch_all_scopus_data.py:176-196 | When the graph does not depend on `topic_groups`, the graphs produced are, in cache order, exactly one per record whose write succeeds, each the graph of that record. |
| FetchAll.GraphsInOrder | fetch_all_scopus_data.py:176-196 | When the graph does not depend on `topic_groups`, the graphs are those of the records whose write succeeds, taken in cache order. |
| FetchAll.GraphsCorrect | fetch_all_scopus_data.py:176-196 | A failure on one professor does not stop the others. The graphs are, in cache order, the builder's graphs of the records whose write succeeds, one each, and there are no others. |
| FetchAll.GraphsSnoc | fetch_all_scopus_data.py:176-196 | One loop step adds the professor's graph when its write succeeds, and nothing when it fails. |
| FetchAll.GenerateAllGraphs | fetch_all_scopus_data.py:155-201 | Loop version. Every record is updated in place by the `topic_groups` merge, and the graphs are those described above. |
| FetchAll.PipelineOutcome | fetch_all_scopus_data.py:204-254 | `main` stops with no API key, or with no professors. It completes exactly when the key is truthy, the connection test passes and some professor with an id returns data. It then saves the fetched cache. |
| FetchAll.RunPipeline | fetch_all_scopus_data.py:204-254 | The imperative `main` reaches the outcome described above. |

## Left out

- HTTP, exceptions around requests and JSON parsing: `get_author_data` receives a `Response` value. A request exception (scopus_client.py:115-125) is not modelled. In the batch fetcher an exception counts as a failure, just like a `None` result, so the oracle's `None` covers both.
- `int()` of `citedby-count`: entries carry the count as an integer already. A non-numeric count, which would raise in the source, is not modelled.
- JSON `null` values: a field is either present with a value of the expected type or absent.
- Full Unicode `.lower()`: only ASCII letters are case-folded (`Text.Lower`).
- App.SearchRows: pandas `str.contains` treats the search text as a regular expression. The model tests for a literal, case-insensitive substring of the name and of the joined first three topics, so it does not capture regex metacharacters or `na=False`.
- The sort of the professor table (app.py:564): `sort_values` is not stable, so no order is claimed for it. It is left out.
- Average-citation float divisions (app.py:246, app.py:514) and the Streamlit layout, widgets, charts and session state: presentation only.
- PyVis `Network`, its options, HTML generation and the click handler (graph_builder.py:182-287): foreign library output. The graph file write is the `writes` oracle, which also stands for the `except` branch of `generate_all_graphs`.
- GraphBuilder.NetworkGraph.AddNode: re-adding an existing node replaces its attributes, whereas `networkx` merges the new attributes into the old ones. The builder never re-adds a node in a graph it has cleared (all ids are distinct), so `build_professor_graph` is unaffected.
- Node attributes `borderWidth`, `borderWidthSelected`, `font`, `margin`, `fixed` and `physics`, and the `border` and `highlight` colours inside `color` (graph_builder.py:43-51, 67-75, 105-113): not modelled. A styled node keeps only its type, label, tooltip, image, background colour, size, shape and url. These attributes are constants per node type and only affect how PyVis draws the graph.
- Edge attributes `opacity` and `smooth` (graph_builder.py:139-140): not modelled. An edge keeps its endpoints, title, width and colour.
- The professor and topic tooltips are stored as the source builds them, but no property is proved about them.
- `datetime.now()` and `time.sleep`: timestamps are parameters (`clock`, `now`) and delays are not modelled.
- Console output (`print`) in every file: not modelled.
- The truthiness test on fetched data (fetch_all_scopus_data.py:95): the oracle returns `None` for "no data", and a returned record always counts as data.
- Key order inside merged JSON objects: records are datatypes, so the order of fields inside one record is not modelled. The order of keys in every dict that is iterated is modelled.
- `scraper.py` and `fetch_professors.py` are not part of this model (HTML scraping and file writing).
- `config.py` beyond its constants: the file paths and the API key are parameters.

## Notes

- The edges built by `build_professor_graph` pass their colour explicitly (`EDGE_COLORS['expertise']` and `EDGE_COLORS['authored']`), so the graph's edge colours are those constants. The lower-cased lookup with its `#94a3b8` default only matters for calls without a colour (`GraphBuilder.ResolveEdgeColor`). `#94a3b8` is also the expertise colour in `config.py`.
- The `topic_groups` merge in `generate_all_graphs` changes the records but cannot change any graph, because `build_professor_graph` reads only `topics` and `papers` (`GraphBuilder.BuildGraphUnaffectedByTopicGroups`, `FetchAll.GraphsCorrect`).
