/** The JSON records the pipeline passes around. A field that may be missing from the JSON
    object is an `Option`; a JSON object whose key order matters is a `Dict`. */
module Records {
  import opened Wrappers
  import opened Dicts

  /** One paper: `{title, year, doi, citations}`, any of which may be absent. */
  datatype Paper = Paper(title: Option<string>, year: Option<string>, doi: Option<string>, citations: Option<int>)

  /** One professor record, in the basic (scraped), flat (fetched) or topic-grouped shape. */
  datatype ProfessorRecord = ProfessorRecord(
    name: Option<string>,
    thaiName: Option<string>,
    scopusId: Option<string>,
    scopusUrl: Option<string>,
    imageUrl: Option<string>,
    profileUrl: Option<string>,
    topics: Option<seq<string>>,
    papers: Option<seq<Paper>>,
    topicGroups: Option<Dict<seq<Paper>>>,
    citationCount: Option<int>,
    documentCount: Option<int>,
    fetchedAt: Option<string>)

  /** The empty JSON object `{}` read as a professor record. */
  const EmptyRecord := ProfessorRecord(None, None, None, None, None, None, None, None, None, None, None, None)

  /** Python truthiness of an optional string: present and non-empty. */
  predicate Truthy(s: Option<string>) {
    s.Some? && s.value != ""
  }

  /** The `metadata` object of an aggregate cache file. */
  datatype Metadata = Metadata(
    fetchedAt: Option<string>,
    professorCount: Option<int>,
    totalPapers: Option<int>,
    totalCitations: Option<int>)

  /** The empty JSON object `{}` read as metadata. */
  const EmptyMetadata := Metadata(None, None, None, None)

  /** An aggregate cache file: `{metadata, professors}`, either key possibly absent. */
  datatype CacheFile = CacheFile(professors: Option<Dict<ProfessorRecord>>, metadata: Option<Metadata>)

  /** The scraped professor file: `{professors: [...]}`. */
  datatype BasicFile = BasicFile(professors: Option<seq<ProfessorRecord>>)
}
