/** The configuration values (config.py) that the modelled code reads. */
module Config {

  const BASE_URL: string := "https://prts.wiki"

  /** `PLAYWRIGHT_CONFIG["term_filter"]`: shortest glossary name and description kept. */
  const TERM_MIN_LENGTH: nat := 2
  const DESC_MIN_LENGTH: nat := 5

  /** `OPERATOR_LIST_CONFIG["attr_mapping"]`: roster attribute name to record field, in order. */
  const ATTR_MAPPING: seq<(string, string)> := [
    ("data-zh", "name_cn"),
    ("data-rarity", "rarity"),
    ("data-profession", "profession"),
    ("data-subprofession", "sub_profession"),
    ("data-logo", "faction"),
    ("data-sex", "gender"),
    ("data-position", "position"),
    ("data-tag", "tags")
  ]
}
