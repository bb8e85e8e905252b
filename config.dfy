/** The visual constants of the knowledge graph. */
module Config {
  import opened Dicts

  /** `NODE_COLORS`. */
  const ProfessorColor := "#f59e0b"
  const TopicColor := "#06b6d4"
  const PaperColor := "#1e3a8a"

  /** `NODE_SIZES`. */
  const ProfessorSize := 60
  const TopicSize := 45
  const PaperSize := 35

  /** `EDGE_COLORS`, looked up by lower-cased edge type. */
  const ExpertiseColor := "#94a3b8"
  const AuthoredColor := "#cbd5e1"
  const EdgeColors: Dict<string> := [("expertise", ExpertiseColor), ("authored", AuthoredColor)]
}
