/** The dashboard's record normaliser and query layer: the two paper shapes, the cache
    loader and the page logic that indexes, searches and filters the professor collection. */
module App {
  import opened Wrappers
  import opened Text
  import opened Seqs
  import opened Dicts
  import opened Records

  // ---------------------------------------------------------------------------
  // Record normaliser
  // ---------------------------------------------------------------------------

  /** All papers of a `topic_groups` mapping: its buckets concatenated in mapping order. */
  function Flatten(groups: seq<(string, seq<Paper>)>): seq<Paper>
    decreases |groups|
  {
    if groups == [] then [] else groups[0].1 + Flatten(groups[1..])
  }

  /** The total size of the buckets of a `topic_groups` mapping. */
  function SumSizes(groups: seq<(string, seq<Paper>)>): nat
    decreases |groups|
  {
    if groups == [] then 0 else |groups[0].1| + SumSizes(groups[1..])
  }

  lemma {:induction false} FlattenSize(groups: seq<(string, seq<Paper>)>)
    ensures |Flatten(groups)| == SumSizes(groups)
    decreases |groups|
  {
    if groups != [] {
      FlattenSize(groups[1..]);
    }
  }

  lemma {:induction false} FlattenAppend(groups: seq<(string, seq<Paper>)>, g: (string, seq<Paper>))
    ensures Flatten(groups + [g]) == Flatten(groups) + g.1
    ensures SumSizes(groups + [g]) == SumSizes(groups) + |g.1|
    decreases |groups|
  {
    if groups == [] {
      assert Flatten([g]) == g.1 + Flatten([]);
    } else {
      assert (groups + [g])[1..] == groups[1..] + [g];
      FlattenAppend(groups[1..], g);
    }
  }

  /** A paper is among all papers exactly when some bucket holds it. */
  lemma {:induction false} FlattenMembers(groups: seq<(string, seq<Paper>)>, x: Paper)
    ensures x in Flatten(groups) <==> exists i :: 0 <= i < |groups| && x in groups[i].1
    decreases |groups|
  {
    if groups != [] {
      FlattenMembers(groups[1..], x);
      if x in Flatten(groups[1..]) {
        var i :| 0 <= i < |groups[1..]| && x in groups[1..][i].1;
        assert x in groups[i + 1].1;
      }
      if exists i :: 0 <= i < |groups| && x in groups[i].1 {
        var i :| 0 <= i < |groups| && x in groups[i].1;
        if i > 0 {
          assert x in groups[1..][i - 1].1;
        }
      }
    }
  }

  /** `get_all_papers`: the flat list when the record has one, otherwise the buckets of
      `topic_groups` concatenated, otherwise nothing. */
  function AllPapersOf(p: ProfessorRecord): seq<Paper> {
    if p.papers.Some? then p.papers.value
    else if p.topicGroups.Some? then Flatten(p.topicGroups.value)
    else []
  }

  /** `get_paper_count`: it always agrees with the length of `get_all_papers`. */
  function PaperCountOf(p: ProfessorRecord): (n: nat)
    ensures n == |AllPapersOf(p)|
  {
    if p.papers.Some? then |p.papers.value|
    else if p.topicGroups.Some? then
      FlattenSize(p.topicGroups.value);
      SumSizes(p.topicGroups.value)
    else 0
  }

  /** `get_paper_count`, summing the bucket sizes in a loop. */
  method GetPaperCount(p: ProfessorRecord) returns (n: nat)
    ensures p.papers.Some? ==> n == |p.papers.value|
    ensures p.papers.None? && p.topicGroups.Some? ==> n == SumSizes(p.topicGroups.value)
    ensures p.papers.None? && p.topicGroups.None? ==> n == 0
    ensures n == |AllPapersOf(p)|
  {
    if p.papers.Some? {
      return |p.papers.value|;
    } else if p.topicGroups.Some? {
      var groups := p.topicGroups.value;
      var total := 0;
      var i := 0;
      while i < |groups|
        invariant 0 <= i <= |groups|
        invariant total == SumSizes(groups[..i])
      {
        assert groups[..i + 1] == groups[..i] + [groups[i]];
        FlattenAppend(groups[..i], groups[i]);
        total := total + |groups[i].1|;
        i := i + 1;
      }
      assert groups[..i] == groups;
      FlattenSize(groups);
      return total;
    }
    return 0;
  }

  /** `get_all_papers`, extending a list bucket by bucket. */
  method GetAllPapers(p: ProfessorRecord) returns (all: seq<Paper>)
    ensures p.papers.Some? ==> all == p.papers.value
    ensures p.papers.None? && p.topicGroups.Some? ==> all == Flatten(p.topicGroups.value)
    ensures p.papers.None? && p.topicGroups.None? ==> all == []
  {
    if p.papers.Some? {
      return p.papers.value;
    } else if p.topicGroups.Some? {
      var groups := p.topicGroups.value;
      all := [];
      var i := 0;
      while i < |groups|
        invariant 0 <= i <= |groups|
        invariant all == Flatten(groups[..i])
      {
        assert groups[..i + 1] == groups[..i] + [groups[i]];
        FlattenAppend(groups[..i], groups[i]);
        all := all + groups[i].1;
        i := i + 1;
      }
      assert groups[..i] == groups;
      return all;
    }
    return [];
  }

  /** For a record of the topic-grouped shape only, the papers are the buckets in order and
      their number is the sum of bucket sizes; a paper is listed iff some bucket holds it. */
  lemma GroupedShape(p: ProfessorRecord, x: Paper)
    requires p.papers.None? && p.topicGroups.Some?
    ensures AllPapersOf(p) == Flatten(p.topicGroups.value)
    ensures PaperCountOf(p) == SumSizes(p.topicGroups.value)
    ensures x in AllPapersOf(p) <==> exists k :: k in Keys(p.topicGroups.value) && Lookup(p.topicGroups.value, k).Some? && x in Lookup(p.topicGroups.value, k).value
  {
    var g := p.topicGroups.value;
    FlattenSize(g);
    FlattenMembers(g, x);
    if x in Flatten(g) {
      var i :| 0 <= i < |g| && x in g[i].1;
      LookupAt(g, i);
      assert g[i].0 in Keys(g);
    }
    if exists k :: k in Keys(g) && Lookup(g, k).Some? && x in Lookup(g, k).value {
      var k :| k in Keys(g) && Lookup(g, k).Some? && x in Lookup(g, k).value;
      var i := IndexOf(g, k);
      LookupAt(g, i);
    }
  }

  /** The total shown on the dashboard: `sum(get_paper_count(p) for p in professors.values())`. */
  function TotalPaperCount(profs: seq<(string, ProfessorRecord)>): nat
    decreases |profs|
  {
    if profs == [] then 0 else PaperCountOf(profs[0].1) + TotalPaperCount(profs[1..])
  }

  /** The citation total shown on the dashboard: `sum(p.get('citation_count', 0) for p in professors.values())`. */
  function TotalCitations(profs: seq<(string, ProfessorRecord)>): int
    decreases |profs|
  {
    if profs == [] then 0 else profs[0].1.citationCount.GetOr(0) + TotalCitations(profs[1..])
  }

  // ---------------------------------------------------------------------------
  // Cache loader
  // ---------------------------------------------------------------------------

  /** What a cache file yields: its professors and metadata, `{}` for a missing key. */
  function CacheContents(f: CacheFile): (Dict<ProfessorRecord>, Metadata) {
    (f.professors.GetOr([]), f.metadata.GetOr(EmptyMetadata))
  }

  /** `load_scopus_cache`. Each file is `None` when it does not exist, otherwise its parsed
      contents. The topic-grouped file wins over the flat one; with neither there is no cache. */
  function LoadScopusCache(topicsFile: Option<CacheFile>, flatFile: Option<CacheFile>): (r: Option<(Dict<ProfessorRecord>, Metadata)>)
    ensures r.None? <==> topicsFile.None? && flatFile.None?
    ensures topicsFile.Some? ==> r == Some(CacheContents(topicsFile.value))
    ensures topicsFile.None? && flatFile.Some? ==> r == Some(CacheContents(flatFile.value))
  {
    if topicsFile.Some? then Some(CacheContents(topicsFile.value))
    else if flatFile.Some? then Some(CacheContents(flatFile.value))
    else None
  }

  // ---------------------------------------------------------------------------
  // Topic index: topic -> professors, and topic counts
  // ---------------------------------------------------------------------------

  /** `prof.get('topics', [])`. */
  function TopicsOf(p: ProfessorRecord): seq<string> {
    p.topics.GetOr([])
  }

  /** `prof.get('name', 'Unknown')`. */
  function NameOf(p: ProfessorRecord): string {
    p.name.GetOr("Unknown")
  }

  /** Every topic of every professor, professor by professor, with repetitions. */
  function AllTopics(profs: seq<(string, ProfessorRecord)>): seq<string>
    decreases |profs|
  {
    if profs == [] then [] else AllTopics(profs[..|profs| - 1]) + TopicsOf(profs[|profs| - 1].1)
  }

  /** The distinct elements of `s` in order of first occurrence. */
  function Dedupe(s: seq<string>): (r: seq<string>)
    ensures forall x :: x in r <==> x in s
    decreases |s|
  {
    if s == [] then []
    else
      var d := Dedupe(s[..|s| - 1]);
      assert s == s[..|s| - 1] + [s[|s| - 1]];
      if s[|s| - 1] in d then d else d + [s[|s| - 1]]
  }

  /** One entry `e` for each occurrence of `t` in one professor's topic list. */
  function OccurrencesIn<V>(topics: seq<string>, t: string, e: V): seq<V>
    decreases |topics|
  {
    if topics == [] then []
    else if topics[|topics| - 1] == t then OccurrencesIn(topics[..|topics| - 1], t, e) + [e]
    else OccurrencesIn(topics[..|topics| - 1], t, e)
  }

  /** What the reverse index holds under topic `t`: one entry per occurrence of `t` in a
      professor's topic list, professor by professor. */
  function Occurrences<V>(profs: seq<(string, ProfessorRecord)>, t: string, entry: (string, ProfessorRecord) -> V): seq<V>
    decreases |profs|
  {
    if profs == [] then []
    else
      var n := |profs| - 1;
      Occurrences(profs[..n], t, entry) + OccurrencesIn(TopicsOf(profs[n].1), t, entry(profs[n].0, profs[n].1))
  }

  /** The index value under `t`, or no key when nothing was listed. */
  function AsEntry<V>(s: seq<V>): Option<seq<V>> {
    if s == [] then None else Some(s)
  }

  /** The count under `t`, or no key when nothing was listed. */
  function AsCount<V>(s: seq<V>): Option<nat> {
    if s == [] then None else Some(|s|)
  }

  /** The (topic, entry) pairs the index visits, professor by professor and topic by topic. */
  function Visits<V>(profs: seq<(string, ProfessorRecord)>, entry: (string, ProfessorRecord) -> V): seq<(string, V)>
    decreases |profs|
  {
    if profs == [] then []
    else
      var n := |profs| - 1;
      Visits(profs[..n], entry) + Tagged(TopicsOf(profs[n].1), entry(profs[n].0, profs[n].1))
  }

  /** One professor's visits: each of its topics paired with its entry. */
  function Tagged<V>(topics: seq<string>, e: V): (vs: seq<(string, V)>)
    ensures |vs| == |topics| && forall k :: 0 <= k < |vs| ==> vs[k] == (topics[k], e)
  {
    seq(|topics|, k requires 0 <= k < |topics| => (topics[k], e))
  }

  function VisitedTopics<V>(vs: seq<(string, V)>): (ts: seq<string>)
    ensures |ts| == |vs| && forall k :: 0 <= k < |vs| ==> ts[k] == vs[k].0
  {
    seq(|vs|, k requires 0 <= k < |vs| => vs[k].0)
  }

  /** The entries visited with topic `t`, in visiting order. */
  function EntriesFor<V>(vs: seq<(string, V)>, t: string): seq<V>
    decreases |vs|
  {
    if vs == [] then []
    else EntriesFor(vs[..|vs| - 1], t) + (if vs[|vs| - 1].0 == t then [vs[|vs| - 1].1] else [])
  }

  lemma {:induction false} EntriesForAppend<V>(a: seq<(string, V)>, b: seq<(string, V)>, t: string)
    ensures EntriesFor(a + b, t) == EntriesFor(a, t) + EntriesFor(b, t)
    decreases |b|
  {
    if b == [] {
      assert a + b == a;
    } else {
      var n := |b| - 1;
      assert (a + b)[..|a + b| - 1] == a + b[..n];
      EntriesForAppend(a, b[..n], t);
    }
  }

  lemma {:induction false} EntriesForTagged<V>(topics: seq<string>, e: V, t: string)
    ensures EntriesFor(Tagged(topics, e), t) == OccurrencesIn(topics, t, e)
    decreases |topics|
  {
    if topics != [] {
      var n := |topics| - 1;
      assert Tagged(topics, e)[..n] == Tagged(topics[..n], e);
      EntriesForTagged(topics[..n], e, t);
    }
  }

  /** The visits list every topic occurrence, and under each topic exactly its occurrences. */
  lemma {:induction false} VisitsCorrect<V>(profs: seq<(string, ProfessorRecord)>, entry: (string, ProfessorRecord) -> V)
    ensures VisitedTopics(Visits(profs, entry)) == AllTopics(profs)
    ensures forall t :: EntriesFor(Visits(profs, entry), t) == Occurrences(profs, t, entry)
    decreases |profs|
  {
    if profs != [] {
      var n := |profs| - 1;
      var e := entry(profs[n].0, profs[n].1);
      var ts := TopicsOf(profs[n].1);
      VisitsCorrect(profs[..n], entry);
      assert VisitedTopics(Visits(profs, entry)) == VisitedTopics(Visits(profs[..n], entry)) + ts;
      forall t ensures EntriesFor(Visits(profs, entry), t) == Occurrences(profs, t, entry) {
        EntriesForAppend(Visits(profs[..n], entry), Tagged(ts, e), t);
        EntriesForTagged(ts, e, t);
      }
    }
  }

  /** `counts` and `groups` are the index of the visits `vs`. */
  ghost predicate IndexedBy<V>(counts: Dict<nat>, groups: Dict<seq<V>>, vs: seq<(string, V)>) {
    && Keys(groups) == Dedupe(VisitedTopics(vs)) && Keys(counts) == Keys(groups)
    && (forall t :: Lookup(groups, t) == AsEntry(EntriesFor(vs, t)))
    && (forall t :: Lookup(counts, t) == AsCount(EntriesFor(vs, t)))
    && SumValues(counts) == |vs|
  }

  /** Visiting one more pair: the count goes up by one and the entry is appended, a topic
      seen for the first time starting from 0 and [] at the end of the key order. */
  lemma IndexStep<V>(counts: Dict<nat>, groups: Dict<seq<V>>, vs: seq<(string, V)>, t: string, e: V,
                     count: nat, listed: seq<V>)
    requires IndexedBy(counts, groups, vs)
    requires count == Lookup(counts, t).GetOr(0) + 1 && listed == Lookup(groups, t).GetOr([]) + [e]
    ensures IndexedBy(Put(counts, t, count), Put(groups, t, listed), vs + [(t, e)])
  {
    var counts', groups', vs' := Put(counts, t, count), Put(groups, t, listed), vs + [(t, e)];
    StepKeys(groups, vs, t, listed, e);
    StepEntries(vs, t, e);
    StepGroups(groups, vs, t, e, listed);
    StepCounts(counts, vs, t, e, count);
    SumValuesPut(counts, t, count);
    assert Keys(counts') == Keys(groups') by {
      PutKeysEqual(counts, groups, t, count, listed);
    }
  }

  lemma PutKeysEqual<V, W>(a: Dict<V>, b: Dict<W>, k: string, v: V, w: W)
    requires Keys(a) == Keys(b)
    ensures Keys(Put(a, k, v)) == Keys(Put(b, k, w))
  {
  }

  lemma StepGroups<V>(groups: Dict<seq<V>>, vs: seq<(string, V)>, t: string, e: V, listed: seq<V>)
    requires listed == Lookup(groups, t).GetOr([]) + [e]
    requires forall u :: Lookup(groups, u) == AsEntry(EntriesFor(vs, u))
    requires EntriesFor(vs + [(t, e)], t) == EntriesFor(vs, t) + [e]
    requires forall u :: u != t ==> EntriesFor(vs + [(t, e)], u) == EntriesFor(vs, u)
    ensures forall u :: Lookup(Put(groups, t, listed), u) == AsEntry(EntriesFor(vs + [(t, e)], u))
  {
    forall u ensures Lookup(Put(groups, t, listed), u) == AsEntry(EntriesFor(vs + [(t, e)], u)) {
      StepGroupAt(groups, listed, EntriesFor(vs, t), EntriesFor(vs, u), EntriesFor(vs + [(t, e)], u), t, e, u);
    }
  }

  lemma StepGroupAt<V>(groups: Dict<seq<V>>, g: seq<V>, old_t: seq<V>, old_u: seq<V>, new_u: seq<V>, t: string, e: V, u: string)
    requires Lookup(groups, t) == AsEntry(old_t) && Lookup(groups, u) == AsEntry(old_u)
    requires g == old_t + [e]
    requires u == t ==> new_u == old_u + [e]
    requires u != t ==> new_u == old_u
    ensures Lookup(Put(groups, t, g), u) == AsEntry(new_u)
  {
    if u != t {
      assert Lookup(Put(groups, t, g), u) == Lookup(groups, u);
    } else {
      assert old_u == old_t by {
        if old_t == [] {
          assert AsEntry(old_u) == None;
        }
      }
      assert new_u == g && |g| > 0;
    }
  }

  lemma StepCounts<V>(counts: Dict<nat>, vs: seq<(string, V)>, t: string, e: V, count: nat)
    requires count == Lookup(counts, t).GetOr(0) + 1
    requires forall u :: Lookup(counts, u) == AsCount(EntriesFor(vs, u))
    requires EntriesFor(vs + [(t, e)], t) == EntriesFor(vs, t) + [e]
    requires forall u :: u != t ==> EntriesFor(vs + [(t, e)], u) == EntriesFor(vs, u)
    ensures forall u :: Lookup(Put(counts, t, count), u) == AsCount(EntriesFor(vs + [(t, e)], u))
  {
    forall u ensures Lookup(Put(counts, t, count), u) == AsCount(EntriesFor(vs + [(t, e)], u)) {
      StepCountAt(counts, count, EntriesFor(vs, t), EntriesFor(vs, u), EntriesFor(vs + [(t, e)], u), t, e, u);
    }
  }

  lemma StepCountAt<V>(counts: Dict<nat>, c: nat, old_t: seq<V>, old_u: seq<V>, new_u: seq<V>, t: string, e: V, u: string)
    requires Lookup(counts, t) == AsCount(old_t) && Lookup(counts, u) == AsCount(old_u)
    requires c == |old_t| + 1
    requires u == t ==> new_u == old_u + [e]
    requires u != t ==> new_u == old_u
    ensures Lookup(Put(counts, t, c), u) == AsCount(new_u)
  {
    if u != t {
      assert Lookup(Put(counts, t, c), u) == Lookup(counts, u);
    }
  }

  lemma StepKeys<V>(groups: Dict<seq<V>>, vs: seq<(string, V)>, t: string, g: seq<V>, e: V)
    requires Keys(groups) == Dedupe(VisitedTopics(vs))
    ensures Keys(Put(groups, t, g)) == Dedupe(VisitedTopics(vs + [(t, e)]))
  {
    var vs' := vs + [(t, e)];
    var ts' := VisitedTopics(vs');
    assert ts'[..|ts'| - 1] == VisitedTopics(vs);
  }

  lemma StepEntries<V>(vs: seq<(string, V)>, t: string, e: V)
    ensures EntriesFor(vs + [(t, e)], t) == EntriesFor(vs, t) + [e]
    ensures forall u :: u != t ==> EntriesFor(vs + [(t, e)], u) == EntriesFor(vs, u)
  {
    var vs' := vs + [(t, e)];
    assert vs'[..|vs'| - 1] == vs;
  }

  /** The reverse index of app.py:305-315 and app.py:582-594: for every topic of every professor, bump the
      topic's counter and append the professor's entry. */
  method GroupByTopic<V>(profs: Dict<ProfessorRecord>, entry: (string, ProfessorRecord) -> V)
    returns (counts: Dict<nat>, groups: Dict<seq<V>>)
    ensures Keys(groups) == Dedupe(AllTopics(profs)) && Keys(counts) == Keys(groups)
    ensures forall t :: Lookup(groups, t) == AsEntry(Occurrences(profs, t, entry))
    ensures forall t :: Lookup(counts, t) == AsCount(Occurrences(profs, t, entry))
    ensures SumValues(counts) == |AllTopics(profs)|
  {
    counts, groups := [], [];
    var i := 0;
    while i < |profs|
      invariant 0 <= i <= |profs|
      invariant IndexedBy(counts, groups, Visits(profs[..i], entry))
    {
      var id, prof := profs[i].0, profs[i].1;
      var topics := TopicsOf(prof);
      ghost var before := Visits(profs[..i], entry);
      assert before + Tagged(topics[..0], entry(id, prof)) == before;
      var j := 0;
      while j < |topics|
        invariant 0 <= j <= |topics|
        invariant IndexedBy(counts, groups, before + Tagged(topics[..j], entry(id, prof)))
      {
        var topic := topics[j];
        ghost var vs := before + Tagged(topics[..j], entry(id, prof));
        // A topic seen for the first time starts at 0 and []; `Put` appends it as a new key.
        var count := Lookup(counts, topic).GetOr(0) + 1;
        var listed := Lookup(groups, topic).GetOr([]) + [entry(id, prof)];
        IndexStep(counts, groups, vs, topic, entry(id, prof), count, listed);
        TaggedSnoc(before, topics, j, entry(id, prof));
        counts := Put(counts, topic, count);
        groups := Put(groups, topic, listed);
        j := j + 1;
      }
      assert topics[..j] == topics;
      VisitsSnoc(profs, i, entry);
      i := i + 1;
    }
    assert profs[..i] == profs;
    IndexOfAllVisits(counts, groups, profs, entry);
  }

  lemma TaggedSnoc<V>(before: seq<(string, V)>, topics: seq<string>, j: nat, e: V)
    requires j < |topics|
    ensures before + Tagged(topics[..j], e) + [(topics[j], e)] == before + Tagged(topics[..j + 1], e)
  {
    assert Tagged(topics[..j], e) + [(topics[j], e)] == Tagged(topics[..j + 1], e);
  }

  lemma VisitsSnoc<V>(profs: seq<(string, ProfessorRecord)>, i: nat, entry: (string, ProfessorRecord) -> V)
    requires i < |profs|
    ensures Visits(profs[..i + 1], entry) == Visits(profs[..i], entry) + Tagged(TopicsOf(profs[i].1), entry(profs[i].0, profs[i].1))
  {
    assert profs[..i + 1][..i] == profs[..i];
  }

  /** The index of all visits is the index of the professors' topic lists. */
  lemma IndexOfAllVisits<V>(counts: Dict<nat>, groups: Dict<seq<V>>, profs: seq<(string, ProfessorRecord)>,
                            entry: (string, ProfessorRecord) -> V)
    requires IndexedBy(counts, groups, Visits(profs, entry))
    ensures Keys(groups) == Dedupe(AllTopics(profs)) && Keys(counts) == Keys(groups)
    ensures forall t :: Lookup(groups, t) == AsEntry(Occurrences(profs, t, entry))
    ensures forall t :: Lookup(counts, t) == AsCount(Occurrences(profs, t, entry))
    ensures SumValues(counts) == |AllTopics(profs)|
  {
    VisitsCorrect(profs, entry);
  }

  /** A topic has as many index entries as it has occurrences among all topic lists. */
  lemma {:induction false} OccurrencesCount<V>(profs: seq<(string, ProfessorRecord)>, t: string,
                                               entry: (string, ProfessorRecord) -> V)
    ensures |Occurrences(profs, t, entry)| == multiset(AllTopics(profs))[t]
    decreases |profs|
  {
    if profs != [] {
      var n := |profs| - 1;
      OccurrencesCount(profs[..n], t, entry);
      OccurrencesInCorrect(TopicsOf(profs[n].1), t, entry(profs[n].0, profs[n].1));
    }
  }

  /** A professor is listed under a topic exactly when the topic is in its list. */
  lemma {:induction false} OccurrencesMembers<V>(profs: seq<(string, ProfessorRecord)>, t: string,
                                                 entry: (string, ProfessorRecord) -> V, x: V)
    ensures x in Occurrences(profs, t, entry)
        <==> exists i :: 0 <= i < |profs| && t in TopicsOf(profs[i].1) && x == entry(profs[i].0, profs[i].1)
    decreases |profs|
  {
    if profs != [] {
      var n := |profs| - 1;
      var e := entry(profs[n].0, profs[n].1);
      var front := profs[..n];
      OccurrencesMembers(front, t, entry, x);
      OccurrencesInCorrect(TopicsOf(profs[n].1), t, e);
      assert Occurrences(profs, t, entry) == Occurrences(front, t, entry) + OccurrencesIn(TopicsOf(profs[n].1), t, e);
      if x in Occurrences(front, t, entry) {
        var i :| 0 <= i < |front| && t in TopicsOf(front[i].1) && x == entry(front[i].0, front[i].1);
        assert front[i] == profs[i];
      }
      if exists i :: 0 <= i < |profs| && t in TopicsOf(profs[i].1) && x == entry(profs[i].0, profs[i].1) {
        var i :| 0 <= i < |profs| && t in TopicsOf(profs[i].1) && x == entry(profs[i].0, profs[i].1);
        if i < n {
          assert front[i] == profs[i];
          assert t in TopicsOf(front[i].1) && x == entry(front[i].0, front[i].1);
        } else {
          var last := OccurrencesIn(TopicsOf(profs[n].1), t, e);
          assert last[0] in last;
        }
      }
    }
  }

  lemma {:induction false} OccurrencesInCorrect<V>(topics: seq<string>, t: string, e: V)
    ensures |OccurrencesIn(topics, t, e)| == multiset(topics)[t]
    ensures forall y :: y in OccurrencesIn(topics, t, e) ==> y == e
    ensures OccurrencesIn(topics, t, e) != [] <==> t in topics
    decreases |topics|
  {
    if topics != [] {
      var n := |topics| - 1;
      OccurrencesInCorrect(topics[..n], t, e);
      assert topics == topics[..n] + [topics[n]];
    }
  }

  /** The entry of the "Research Topics Distribution" index: the professor's name. */
  function NameEntry(id: string, p: ProfessorRecord): string {
    NameOf(p)
  }

  /** app.py:305-315: `topic_count` and `topic_professors`. */
  method TopicDistribution(profs: Dict<ProfessorRecord>)
    returns (topicCount: Dict<nat>, topicProfessors: Dict<seq<string>>)
    ensures Keys(topicCount) == Keys(topicProfessors) == Dedupe(AllTopics(profs))
    ensures forall t :: Lookup(topicProfessors, t) == AsEntry(Occurrences(profs, t, NameEntry))
    ensures forall t :: Lookup(topicCount, t) == AsCount(Occurrences(profs, t, NameEntry))
    ensures SumValues(topicCount) == |AllTopics(profs)|
  {
    topicCount, topicProfessors := GroupByTopic(profs, NameEntry);
  }

  /** An entry of the "Filter by Topic" index. */
  datatype TopicEntry = TopicEntry(scopusId: string, name: string, thaiName: string,
                                   citationCount: int, paperCount: nat, profData: ProfessorRecord)

  function TopicEntryOf(id: string, p: ProfessorRecord): TopicEntry {
    TopicEntry(id, NameOf(p), p.thaiName.GetOr(""), p.citationCount.GetOr(0), PaperCountOf(p), p)
  }

  /** The sort key of app.py:597: the number of professors listed under a topic. */
  function Popularity(item: (string, seq<TopicEntry>)): int {
    |item.1|
  }

  /** `all_topics.items()` before sorting: the topics in first-seen order, each with its
      index entries. */
  function TopicIndex(profs: seq<(string, ProfessorRecord)>): (items: seq<(string, seq<TopicEntry>)>)
    ensures Keys(items) == Dedupe(AllTopics(profs))
  {
    var ts := Dedupe(AllTopics(profs));
    seq(|ts|, i requires 0 <= i < |ts| => (ts[i], Occurrences(profs, ts[i], TopicEntryOf)))
  }

  /** A reverse index with the keys and entries `GroupByTopic` promises is `TopicIndex`. */
  lemma GroupsAreIndex(profs: seq<(string, ProfessorRecord)>, groups: Dict<seq<TopicEntry>>)
    requires Keys(groups) == Dedupe(AllTopics(profs))
    requires forall t :: Lookup(groups, t) == AsEntry(Occurrences(profs, t, TopicEntryOf))
    ensures groups == TopicIndex(profs)
  {
    var index := TopicIndex(profs);
    forall i | 0 <= i < |groups| ensures groups[i] == index[i] {
      LookupAt(groups, i);
      assert Keys(groups)[i] == groups[i].0;
    }
  }

  /** app.py:582-597: `all_topics`, then sorted by number of entries, most first. Each topic
      occurs once, with exactly its index entries. The sort is stable: topics listed under
      the same number of professors keep their first-seen order. */
  method TopicsByPopularity(profs: Dict<ProfessorRecord>) returns (sortedTopics: seq<(string, seq<TopicEntry>)>)
    ensures NonIncreasing(sortedTopics, Popularity)
    ensures KeysDistinct(sortedTopics)
    ensures forall t :: t in Keys(sortedTopics) <==> t in AllTopics(profs)
    ensures forall i :: 0 <= i < |sortedTopics| ==>
              sortedTopics[i].1 == Occurrences(profs, sortedTopics[i].0, TopicEntryOf) && sortedTopics[i].1 != []
    ensures forall c :: WithKey(sortedTopics, Popularity, c) == WithKey(TopicIndex(profs), Popularity, c)
  {
    var _, allTopics := GroupByTopic(profs, TopicEntryOf);
    GroupsAreIndex(profs, allTopics);
    sortedTopics := SortDesc(allTopics, Popularity);
    SortDescCorrect(allTopics, Popularity);
    PermutedDict(allTopics, sortedTopics);
    forall t ensures t in Keys(sortedTopics) <==> t in AllTopics(profs) {
      assert t in Keys(allTopics) <==> t in Dedupe(AllTopics(profs));
    }
  }

  // ---------------------------------------------------------------------------
  // "All Professors": table rows and the search filter
  // ---------------------------------------------------------------------------

  /** A row of the professor table (app.py:544-553). */
  datatype Row = Row(name: string, topics: string, papers: nat, citations: int, scopusId: string)

  /** The row of one professor: its first three topics joined with ", ". */
  function RowOf(id: string, p: ProfessorRecord): Row {
    var ts := TopicsOf(p);
    Row(NameOf(p), Join(", ", if |ts| <= 3 then ts else ts[..3]), PaperCountOf(p), p.citationCount.GetOr(0), id)
  }

  /** Builds `prof_list`, one row per professor in mapping order. */
  method ProfessorRows(profs: Dict<ProfessorRecord>) returns (rows: seq<Row>)
    ensures |rows| == |profs|
    ensures forall i :: 0 <= i < |profs| ==> rows[i] == RowOf(profs[i].0, profs[i].1)
  {
    rows := [];
    var i := 0;
    while i < |profs|
      invariant 0 <= i <= |profs|
      invariant |rows| == i
      invariant forall k :: 0 <= k < i ==> rows[k] == RowOf(profs[k].0, profs[k].1)
    {
      var id, prof := profs[i].0, profs[i].1;
      var ts := TopicsOf(prof);
      var papers := GetPaperCount(prof);
      rows := rows + [Row(NameOf(prof), Join(", ", if |ts| <= 3 then ts else ts[..3]), papers, prof.citationCount.GetOr(0), id)];
      i := i + 1;
    }
  }

  /** The search test of app.py:558-559, read as a literal case-insensitive substring test on the
      name column or the topics column. */
  predicate RowMatches(search: string, r: Row) {
    IsSubstring(Lower(search), Lower(r.name)) || IsSubstring(Lower(search), Lower(r.topics))
  }

  /** The table after the search box: every row when the search is empty, otherwise the
      matching rows in their order. */
  function SearchRows(rows: seq<Row>, search: string): (r: seq<Row>)
    ensures IsSubsequence(r, rows)
    ensures forall i :: 0 <= i < |rows| ==> (rows[i] in r <==> search == "" || RowMatches(search, rows[i]))
  {
    if search == "" then
      FilterAll(rows, x => true);
      FilterIsSubsequence(rows, x => true);
      rows
    else
      FilterIsSubsequence(rows, x => RowMatches(search, x));
      Filter(rows, x => RowMatches(search, x))
  }

  /** A professor is found by a search that occurs, ignoring case, in its name or in one of
      its first three topics. */
  lemma SearchFindsProfessor(profs: Dict<ProfessorRecord>, i: nat, search: string, k: nat)
    requires i < |profs|
    requires IsSubstring(Lower(search), Lower(NameOf(profs[i].1)))
          || (k < 3 && k < |TopicsOf(profs[i].1)| && IsSubstring(Lower(search), Lower(TopicsOf(profs[i].1)[k])))
    ensures RowOf(profs[i].0, profs[i].1) in SearchRows(seq(|profs|, j requires 0 <= j < |profs| => RowOf(profs[j].0, profs[j].1)), search)
  {
    var rows := seq(|profs|, j requires 0 <= j < |profs| => RowOf(profs[j].0, profs[j].1));
    var p := profs[i].1;
    var ts := TopicsOf(p);
    var shown := if |ts| <= 3 then ts else ts[..3];
    if !IsSubstring(Lower(search), Lower(NameOf(p))) {
      assert shown[k] == ts[k];
      JoinContainsItem(", ", shown, k);
      SubstringLower(ts[k], Join(", ", shown));
      SubstringTransitive(Lower(search), Lower(ts[k]), Lower(Join(", ", shown)));
    }
    assert rows[i] == RowOf(profs[i].0, p);
  }

  // ---------------------------------------------------------------------------
  // "Filter by Topic": one professor's papers for the selected topic (app.py:670-705)
  // ---------------------------------------------------------------------------

  /** The selected bucket and the other buckets, or all papers split by title match. */
  datatype TopicView =
    | Grouped(topicPapers: seq<Paper>, otherTopics: seq<(string, seq<Paper>)>)
    | Flat(allPapers: seq<Paper>, related: seq<Paper>, other: seq<Paper>)

  /** `selected_topic.lower() in p.get('title', '').lower()`. */
  predicate IsRelated(topic: string, p: Paper) {
    IsSubstring(Lower(topic), Lower(p.title.GetOr("")))
  }

  /** The papers shown for `topic` on one professor's card. */
  function PapersForTopic(prof: ProfessorRecord, topic: string): (v: TopicView)
    ensures v.Grouped? <==> prof.topicGroups.Some? && topic in Keys(prof.topicGroups.value)
    ensures v.Grouped? ==>
              && Lookup(prof.topicGroups.value, topic) == Some(v.topicPapers)
              && IsSubsequence(v.otherTopics, prof.topicGroups.value)
              && (forall k :: k in Keys(v.otherTopics) <==> k in Keys(prof.topicGroups.value) && k != topic)
              && |v.topicPapers| + SumSizes(v.otherTopics) == SumSizes(prof.topicGroups.value)
    ensures v.Flat? ==>
              && v.allPapers == AllPapersOf(prof)
              && IsSubsequence(v.related, v.allPapers) && IsSubsequence(v.other, v.allPapers)
              && multiset(v.related) + multiset(v.other) == multiset(v.allPapers)
              && (forall x :: x in v.related ==> IsRelated(topic, x))
              && (forall x :: x in v.other ==> !IsRelated(topic, x))
              && (forall x :: x in v.allPapers ==> (x in v.related || x in v.other))
  {
    if prof.topicGroups.Some? && topic in Keys(prof.topicGroups.value) then
      var groups := prof.topicGroups.value;
      var others := Filter(groups, OtherTopic(topic));
      var i := IndexOf(groups, topic);
      LookupAt(groups, i);
      OtherTopicsSize(groups, i);
      FilterIsSubsequence(groups, OtherTopic(topic));
      OtherTopicsKeys(groups, topic);
      Grouped(groups[i].1, others)
    else
      var all := AllPapersOf(prof);
      var related := Filter(all, x => IsRelated(topic, x));
      var other := Filter(all, x => !IsRelated(topic, x));
      FilterIsSubsequence(all, x => IsRelated(topic, x));
      FilterIsSubsequence(all, x => !IsRelated(topic, x));
      FilterPartition(all, x => IsRelated(topic, x), x => !IsRelated(topic, x));
      Flat(all, related, other)
  }

  /** The test that keeps every bucket but the selected one. */
  function OtherTopic(topic: string): ((string, seq<Paper>)) -> bool {
    (kv: (string, seq<Paper>)) => kv.0 != topic
  }

  /** The other buckets together with the selected one hold every grouped paper. */
  lemma {:induction false} OtherTopicsSize(groups: Dict<seq<Paper>>, i: nat)
    requires i < |groups|
    ensures |groups[i].1| + SumSizes(Filter(groups, OtherTopic(groups[i].0))) == SumSizes(groups)
    decreases |groups|
  {
    var k := groups[i].0;
    var p := OtherTopic(k);
    var rest := groups[1..];
    assert SumSizes(groups) == |groups[0].1| + SumSizes(rest);
    if i == 0 {
      assert Filter(groups, p) == Filter(rest, p);
      forall j | 0 <= j < |rest| ensures p(rest[j]) {
        assert rest[j] == groups[j + 1];
      }
      FilterAll(rest, p);
    } else {
      assert rest[i - 1] == groups[i];
      OtherTopicsSize(rest, i - 1);
      var f := Filter(rest, p);
      assert Filter(groups, p) == [groups[0]] + f;
      assert ([groups[0]] + f)[1..] == f;
      assert SumSizes([groups[0]] + f) == |groups[0].1| + SumSizes(f);
    }
  }

  lemma OtherTopicsKeys(groups: Dict<seq<Paper>>, topic: string)
    ensures forall k :: k in Keys(Filter(groups, OtherTopic(topic)))
                    <==> k in Keys(groups) && k != topic
  {
    var others := Filter(groups, OtherTopic(topic));
    forall k ensures k in Keys(others) <==> k in Keys(groups) && k != topic {
      if k in Keys(others) {
        var i :| 0 <= i < |others| && others[i].0 == k;
        assert others[i] in groups;
      }
      if k in Keys(groups) && k != topic {
        var i :| 0 <= i < |groups| && groups[i].0 == k;
        assert groups[i] in others;
        var j :| 0 <= j < |others| && others[j] == groups[i];
        assert Keys(others)[j] == k;
      }
    }
  }
}
