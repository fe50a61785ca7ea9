# PRTS wiki parsers, modelled in Dafny

ArkDataKit scrapes the PRTS wiki, the Arknights community wiki. This project models the
deterministic core of its parsers and proves what their output always satisfies:

- **Detail page.** An operator's page (`OperatorDetailParser` in operators_detail_parse.py)
  becomes a record. The record holds:
  - the characteristic (branch name, branch description, trait details);
  - the base attributes in five tiers, and the extra attributes;
  - up to two talents, read by a row state machine;
  - up to three skills, read by a second row state machine, after a walk over the skill
    tables;
  - the glossary terms. These are found by hovering tooltip candidates in the browser, with a
    cap of 20 and a stop on a page crash.
- **Older single-operator parser.** `SingleOperatorParser` and `parse_single_operator` in
  parse_operator.py produce the same record, but with these differences:
  - extra attributes are read as cell pairs;
  - a different skill machine, and a different walk over the skill tables;
  - no empty-name skill filter;
  - no cap on terms, and no crash stop.
- **Roster.** The roster page (operators_list_get.py, and the same code in get_operator.py)
  gives one record per operator: attributes renamed to fields, rarity shifted from 0-5 to
  1-6. The records are then sorted by rarity descending, then by Chinese name.
- **Static glossary page.** terms_parse.py turns each anchor paragraph into a term, whose
  explanation is the next paragraph.
- **Text helpers.** The helpers of utils.py: `clean_text`, `clean_desc`, `clean_filename` and
  `deduplicate_terms`.

How the model is set up:

- **Pages.** An HTML page is a tree of `Markup.Node`s, each a text or an element with its
  name, style, classes and children.
- **Selectors.** What the CSS selectors and `find` calls locate is part of the input:
  `Soup.Soup` holds the located tables and sections of a detail page.
- **Browser.** The browser is an oracle. For candidate `i`, `probe(i)` says what the tooltip
  showed, or that none appeared, that a call failed, or that the page crashed.
- **Loops.** Every loop of the source is a `method` with a `while` or `for` loop. Each method
  is proved equal to a specification function. Lemmas then state what the source promises
  about that function.
- **State machines.** The talent and skill machines are proved equal to closed forms, and the
  lemmas about those closed forms state which rows give what.
- **Parser classes.** The two parser classes keep their lazily loaded soup as a field.

Extra-attribute labels are matched exactly. The detail parser deletes the quote characters
from the header cell, strips it, and then looks the label up exactly
(operators_detail_parse.py:218-239). `Attributes.ExtraEntry` models that lookup.

operators_list_get.py and get_operator.py run the same roster code, and their attribute
mappings are identical (config.py:44-53, get_operator.py:31-40). So one module, `Roster`,
models both.

## Model

| member | source | states |
|---|---|---|
| Utils.CleanText | utils.py:35-59 | No input, or an empty string, gives ""; the result never has whitespace at either end; a string cleaned without marker removal has only single spaces as whitespace; a tag with the default arguments gives its stripped strings with the "（+）" marker deleted |
| Utils.CleanStringIdempotent | utils.py:41-46 | Cleaning a string a second time, without marker removal, changes nothing |
| Utils.BrReplacementInvisible | utils.py:49-54 | The "\n" strings that replace `<br>` tags are stripped away by `get_text(strip=True)`, so they never show in the result |
| Utils.CleanDesc | utils.py:61-73 | No tag gives ""; the description has no whitespace at either end |
| Utils.NoiseSpanContributesNothing | utils.py:66-72 | A span styled with an algorithm-hint colour or `display:none`, at any depth below the tag, contributes nothing: the description is the same when that span has first been replaced by an empty string, which is what `replace_with("")` does |
| Utils.NoiseChildRemoved | utils.py:66-72 | A noise span that is a child of the tag contributes nothing: the description is the same with that child removed |
| Markup.DescendantsHavePaths | utils.py:66-72 | Every descendant that `select` can reach lies at some child-index path below the tag, so the noise lemma covers every span `select` finds |
| Markup.PathsAreDescendants | utils.py:66-72 | Every node at a non-empty child-index path is a descendant of the tag |
| Utils.PrunedHasNoNoise | utils.py:66-72 | After pruning, no noise span is left anywhere below the tag |
| Utils.CleanFilename | utils.py:76-79 | Same length; each character is kept or becomes "_", and it is replaced exactly when it is an invalid character (punctuation other than "_"); no invalid character remains |
| Utils.CleanFilenameIdempotent | utils.py:76-79 | Cleaning a filename twice equals cleaning it once |
| Utils.DeduplicateTerms | utils.py:86-94 | Raises KeyError exactly when some record lacks the key; otherwise returns the first record per key value, in input order |
| Utils.FirstOccurrencesDistinct | utils.py:86-94 | The deduplicated list has pairwise distinct keys |
| Utils.FirstOccurrencesKeys | utils.py:86-94 | Every key of the input is a key of the output, and no other |
| Utils.FirstOccurrencesSubsequence | utils.py:86-94 | The output is an order-preserving subsequence of the input |
| Utils.FirstOccurrencesKeepsFirsts | utils.py:86-94 | Every item that is the first of its key is kept |
| Utils.FirstOccurrencesOnlyFirsts | utils.py:86-94 | Every kept item is the first item of its key |
| Utils.FirstOccurrencesOfDistinct | utils.py:86-94 | A list whose keys are already distinct comes back unchanged |
| Utils.FirstOccurrencesIdempotent | utils.py:86-94 | Deduplicating twice equals deduplicating once |
| Attributes.TierOf | operators_detail_parse.py:193-201 | A header cell names one of the five tiers or none |
| Attributes.TierOfSpec | operators_detail_parse.py:193-201 | A header names no tier exactly when it contains none of the five phrases; otherwise it names the tier of the first phrase in the chain that it contains |
| Attributes.KeyMapping | operators_detail_parse.py:193-201 | One tier (or none) per header cell, by column |
| Attributes.EmptyTiers | operators_detail_parse.py:183-189 | The five tiers, each an empty map |
| Attributes.FillBaseAttributes | operators_detail_parse.py:180-216 | The base-attribute fill leaves the dict defined by the specification `BaseAttributes`, whose column tiers come from the header cells of every row that is the first element of its parent |
| Attributes.FirstChildCellsUnder | operators_detail_parse.py:193 | Below a row that is the first element of its parent, every `th` and `td` is a header cell, in document order |
| Attributes.HeaderCellsAreCells | operators_detail_parse.py:193 | Every header cell is a `th` or `td` inside the table |
| Attributes.HeaderCellsOfFirstRow | operators_detail_parse.py:193 | A row that is the table's first child gives all its cells, in order, at the start of the header |
| Attributes.HeaderOfEveryRowGroup | operators_detail_parse.py:193 | With a `thead` and a `tbody`, the header is the cells of the first row of each group, in order, and a later data row adds nothing |
| Attributes.FillRows | operators_detail_parse.py:209-216 | The row loop over every `tr` after the first one, in document order, makes exactly the table's writes, in order |
| Attributes.ReadCells | operators_detail_parse.py:210 | The cleaned texts of a row's header and data cells |
| Attributes.FillRow | operators_detail_parse.py:210-216 | A row with fewer than two cells makes no write; any other row makes its column writes |
| Attributes.FillColumns | operators_detail_parse.py:213-216 | The column loop writes column `idx`, for each `idx` at least 1 whose header names a tier, under the attribute key of the row's label |
| Attributes.BaseAttributesSpec | operators_detail_parse.py:183-216 | The result always has exactly the five tiers, all empty without a table; within a tier an attribute is present exactly when some write targets it, and it holds the value of the last such write |
| Attributes.BaseWriteOrigin | operators_detail_parse.py:209-216 | A write comes only from a data row of at least two cells, at a column `idx` at least 1 whose header names that tier, under the four-entry map's key for the label or the lowercased label |
| Attributes.ExtraEntry | operators_detail_parse.py:227-236 | A row contributes exactly when it has a `th` and a `td` and its quote-stripped header is one of the six labels; the key is that label's canonical name and the value is the first `td`'s text |
| Attributes.FillExtraAttributes | operators_detail_parse.py:218-239 | The extra-attribute loop leaves the dict defined by the specification `ExtraAttributes` |
| Attributes.ExtraAttributesSpec | operators_detail_parse.py:218-239 | Every key is one of the six canonical names; a key is present exactly when some row contributes it, and a later row's value overwrites an earlier one |
| Characteristic.FirstBranchRow | operators_detail_parse.py:267 | Finds the first node of a list that is a `tr` whose string mentions 分支信息, with none before it, and none exactly when no node is one |
| Characteristic.ParseChara | operators_detail_parse.py:250-273 | No table gives three "" fields; with a second row that has data cells, the branch name is that row's first cell cleaned and the branch description its second cell cleaned, and each is "" when its cell is missing; the trait details are the `clean_desc` texts of the `li`s of the row after the branch row, concatenated, and "" when there is no such row |
| Characteristic.BranchSearchIsFirst | operators_detail_parse.py:267 | `find("tr", string=…)` finds the first branch row in document order, and finds none exactly when there is no branch row at or below the list |
| Characteristic.TraitRowSpec | operators_detail_parse.py:267-271 | The row `find_next_sibling("tr")` gives is a `tr`; there is none without a branch row; the branch row it starts from is the first one of the table in document order |
| Characteristic.LastBranchRowHasNoDetails | operators_detail_parse.py:269-271 | A branch row that is the last `tr` of its parent gives no trait details, even when a later row of the table exists elsewhere |
| Characteristic.CleanDescAll | operators_detail_parse.py:271 | One `clean_desc` text per list item, in order |
| Talents.ReadRow | operators_detail_parse.py:298-299 | What the machine reads from one row: the number of its `td`s, whether it has a `th`, and the texts of the cells it indexes |
| Talents.TalentRow | operators_detail_parse.py:296-319 | One iteration of the loop is one step of the row machine |
| Talents.Step | operators_detail_parse.py:296-319 | Defines one step of the talent machine; `TalentRow` is proved to take it, and `MachineIsClosedForm` gives its closed form |
| Talents.TalentRows | operators_detail_parse.py:291-319 | The row loop ends in the state the machine reaches after all rows: rows exhausted, the `break` after the remark, or an IndexError |
| Talents.Outcome | operators_detail_parse.py:321-322 | An IndexError exactly when the loop raised one; a returned talent carries its type, a name and at least one detail |
| Talents.ParseSingleTalent | operators_detail_parse.py:284-322 | `parse_single_talent` gives the talent defined by the machine on the table's rows |
| Talents.SingleTalent | operators_detail_parse.py:284-322 | Defines the talent of one table; `SingleTalentShape`, `DetailsOrigin` and `NameIsFirst` state where its fields come from |
| Talents.MachineIsClosedForm | operators_detail_parse.py:291-322 | The row machine equals the closed form: the details and the name come from the rows before index n-2 when that row has a `th`, and the remark from row n-1 |
| Talents.DetailsOrigin | operators_detail_parse.py:295-319 | Every detail comes from a row at index 1 or later with at least three data cells, so row 0 is never a detail, and at most one detail per row |
| Talents.NameIsFirst | operators_detail_parse.py:311-313 | The talent name is the first non-empty first-cell text, and it is never overwritten |
| Talents.SingleTalentShape | operators_detail_parse.py:284-322 | A talent has its type, a name and at least one detail; every detail comes from a row below the `th` row at n-2 with at least three data cells; a remark is read only in remark mode |
| Talents.TalentsOf | operators_detail_parse.py:275-337 | At most two talents; none without the header or the first table; each has a name and details; the first is typed 第一天赋 and the second 第二天赋 |
| Talents.ParseTalents | operators_detail_parse.py:275-337 | `parse_talents` gives the talents defined by `TalentsOf`, and the second table is looked for only when a first table exists |
| Skills.ExtractVisibleText | operators_detail_parse.py:349-360 | The loop over a cell's children gives the visible text defined by `VisibleText` |
| Skills.VisibleChild | operators_detail_parse.py:352-359 | A string child contributes its stripped text, and a visible span its cleaned text, each only when non-empty |
| Skills.InvisibleChild | operators_detail_parse.py:356 | A hidden span, or any element other than a span, contributes nothing to the visible text |
| Skills.VisiblePartsTrimmed | operators_detail_parse.py:349-360 | Every visible part is non-empty and has no whitespace at either end |
| Skills.VisibleTextTrimmed | operators_detail_parse.py:360 | The visible text has no whitespace at either end |
| Skills.ReadRow | operators_detail_parse.py:375-396 | What the skill machine reads from one row: the `td` count, whether it has a `th`, and the name, type and level cells |
| Skills.LevelsOf | operators_detail_parse.py:388-397 | At most two levels; a table of at most 8 rows gives none and one of at most 11 rows at most one |
| Skills.Outcome | operators_detail_parse.py:363-370 | The skill carries its number and the unlock condition 精英 followed by that number |
| Skills.SkillRow | operators_detail_parse.py:374-404 | One iteration of the loop is one step of the skill machine; a row without data cells is passed over before every other test |
| Skills.Step | operators_detail_parse.py:374-404 | Defines one step of the skill machine; `SkillRow` is proved to take it, and `MachineIsClosedForm` gives its closed form |
| Skills.SkillRows | operators_detail_parse.py:371-404 | The row loop ends in the state the machine reaches after all rows, or at the `break` after the remark |
| Skills.ParseSingleSkill | operators_detail_parse.py:362-406 | `parse_single_skill` gives the skill defined by the machine on the table's rows |
| Skills.SingleSkill | operators_detail_parse.py:362-406 | Defines the skill of one table; `SkillLevelsShape`, `SkillHeadShape` and `SkillRemarkShape` state where its fields come from |
| Skills.MachineIsClosedForm | operators_detail_parse.py:362-406 | The skill machine equals its closed form |
| Skills.SkillLevelsShape | operators_detail_parse.py:388-397 | The levels are those of rows 8 and 11, in that order, each only when the row has at least five data cells; the number and unlock condition are those of the table |
| Skills.SkillHeadShape | operators_detail_parse.py:379-386 | The name comes from row 0's cell 1 (its `big` text if it has one); the type is the "\|"-join of the tooltip spans of row 0's cell 2 |
| Skills.SkillRemarkShape | operators_detail_parse.py:399-404 | A remark comes only from the last row's first cell, when the row before it has a `th` and neither row is a level row |
| Skills.MentionsSkills | operators_detail_parse.py:421 | Whether the anchor paragraph's cleaned text contains 技能 |
| Skills.SkillTables | operators_detail_parse.py:413-432 | The walk finds no more tables than it has tries left |
| Skills.SkillTablesShape | operators_detail_parse.py:413-432 | Every table found is a sibling that carries the wikitable, nomobile and logo classes |
| Skills.WalkStep | operators_detail_parse.py:417-432 | One try of the walk adds the table its anchor yields and moves to the next anchor, or ends the walk when there is no anchor or it does not mention 技能 |
| Skills.FindSkillTables | operators_detail_parse.py:413-432 | The walk over at most three anchors gives the tables defined by `SkillTables` |
| Skills.ParsedSkills | operators_detail_parse.py:436-437 | One parsed skill per table, numbered from 1, with the matching unlock condition |
| Skills.KeptSkills | operators_detail_parse.py:436-439 | Only skills with a name are kept, and there are no more of them than tables |
| Skills.KeptSkillsOrder | operators_detail_parse.py:436-439 | The kept skills are in increasing order of number, and each is the parsed skill of its number |
| Skills.KeptSkillsNamed | operators_detail_parse.py:438-439 | A skill is kept exactly when it has a name |
| Skills.SkillsOf | operators_detail_parse.py:339-443 | None without the 技能 header or its `h2`; at most three, each with a name |
| Skills.SkillsOfShape | operators_detail_parse.py:413-439 | The skills found under the `h2` are numbered from 1 to 3 in increasing order, and each is the skill of its own table with the matching unlock condition |
| Skills.KeptParsedShape | operators_detail_parse.py:436-439 | For any list of tables, the kept skills are numbered by position, in increasing order, and each is the skill of its table |
| Skills.ParseSkills | operators_detail_parse.py:339-443 | `parse_skills` gives the skills defined by `SkillsOf` |
| Skills.ParseSkillTables | operators_detail_parse.py:436-439 | The numbering loop keeps exactly the named skills, in table order |
| Terms.CandidateNamesValid | operators_detail_parse.py:459-465 | The cleaned name of each candidate has at least two characters and is not all digits |
| Terms.StrongText | operators_detail_parse.py:525 | A strong text has no ASCII colon and does not end with a full-width colon |
| Terms.TermType | operators_detail_parse.py:528-530 | The type is the "，"-join of the strong texts, or 无 when there are none or when it would equal the term's name |
| Terms.FormatDesc | operators_detail_parse.py:553 | The description is trimmed, and each whitespace run is one "\n" |
| Terms.FormatDescIdempotent | operators_detail_parse.py:553 | Formatting a formatted description changes nothing |
| Terms.CollectStrongTexts | operators_detail_parse.py:521-527 | The strong-text loop keeps the non-empty cleaned strong texts, in order |
| Terms.CollectContentParts | operators_detail_parse.py:532-539 | The content loop keeps the non-empty stripped texts, in order |
| Terms.ReadType | operators_detail_parse.py:521-530 | The type read from the tooltip is `TermType` of its strong texts |
| Terms.ReadDescription | operators_detail_parse.py:532-545 | The description is the "\n"-join of the content parts; when that is empty, it is the tooltip's whole text with the type and its colon forms deleted, then stripped |
| Terms.Evaluate | operators_detail_parse.py:513-557 | A found term has the candidate's name, a description of at least five characters in "\n"-separated form, and the 无 rule applied to its type; no tooltip means missed, a failing call means failed, a crash means crashed |
| Terms.Hover | operators_detail_parse.py:513-557 | Hovering and reading the tooltip gives the outcome defined by `Evaluate` |
| Terms.HoverAt | operators_detail_parse.py:490-557 | Hovering candidate `idx` gives that candidate's outcome |
| Terms.StoppedStays | operators_detail_parse.py:481-483 | Once the loop has broken off, the later candidates change nothing |
| Terms.ScanTermsOk | operators_detail_parse.py:480-595 | At every point of the loop: `term_seen` is the set of collected names; the names are distinct candidate names; each description is long enough and normalized; the 无 rule holds; there are no more terms than processed candidates; processed candidates never exceed the candidates seen or the cap |
| Terms.TermStep | operators_detail_parse.py:485-595 | One iteration below the cap: an empty or already-seen name is skipped without hovering; a found term is appended and counted; a missed tooltip or a short description is not counted; a failure is counted; a crash breaks the detail loop and is counted as a failure by the legacy loop |
| Terms.Step | operators_detail_parse.py:485-595 | Defines one iteration of either candidate loop on one outcome; `TermStep` is proved to take it, and `StoppedStays`, `CrashStopsDetail` and `CrashContinuesLegacy` state its cases |
| Terms.TermLoop | operators_detail_parse.py:480-595 | The candidate loop, with the cap and crash break of its variant, collects the terms defined by `ScanTerms` |
| Terms.FinalDedup | operators_detail_parse.py:600-605 | The closing pass keeps the first term of each name, in order |
| Terms.ParseDetailTerms | operators_detail_parse.py:445-608 | No terms without the content area, without candidates, or when the page does not answer; otherwise the capped loop, deduplicated |
| Terms.DetailTerms | operators_detail_parse.py:445-608 | Defines the detail parser's terms; `DetailTermsShape` states their shape |
| Terms.ParseLegacyTerms | parse_operator.py:325-490 | No terms without the content area or without candidates; otherwise the uncapped loop, deduplicated |
| Terms.LegacyTerms | parse_operator.py:325-490 | Defines the older parser's terms; `LegacyTermsShape` states their shape |
| Terms.CollectedShape | operators_detail_parse.py:480-605 | The closing deduplication changes nothing; the terms have distinct valid candidate names, long enough normalized descriptions, the 无 rule, and are no more than the processed candidates or the cap |
| Terms.DetailTermsShape | operators_detail_parse.py:445-608 | The detail parser's terms have distinct valid names, descriptions of at least five characters in "\n"-separated form, the 无 rule, and number at most 20; none without content or a live page |
| Terms.LegacyTermsShape | parse_operator.py:325-490 | The older parser's terms have distinct valid names and descriptions of at least five characters; none without content |
| Terms.CrashStopsDetail | operators_detail_parse.py:587-591 | A crash on a candidate that is hovered ends the detail loop: nothing after it changes the result |
| Terms.CrashContinuesLegacy | parse_operator.py:469-473 | In the older loop a crash is one more failure: the loop goes on, and the terms so far are unchanged |
| Terms.LegacyNeverStops | parse_operator.py:355-473 | The older loop never breaks off |
| Glossary.Explanation | terms_parse.py:52-56 | "" without a next paragraph; when the name does not occur in the paragraph's cleaned text, the explanation is that text unchanged; when it occurs, the explanation is shorter than that text by at least the name's length; never whitespace at either end |
| Glossary.EntriesShape | terms_parse.py:46-61 | Every record has exactly the keys `term_name` and `term_explanation`; the name is a non-empty stripped id of some anchor, and the explanation is that anchor's |
| Glossary.EntriesComplete | terms_parse.py:46-61 | Every anchor whose stripped id is non-empty gives a record |
| Glossary.EntryOf | terms_parse.py:47-61 | Defines the record of one anchor, none for an empty stripped id; `EntriesShape` and `EntriesComplete` state what the records are |
| Glossary.GlossaryTermsShape | terms_parse.py:29-66 | No content area gives []; otherwise the records have exactly the two keys and pairwise distinct names, keep anchor order, keep every name, and are the first record of each name |
| Glossary.GlossaryTerms | terms_parse.py:29-66 | Defines what `parse` returns; `GlossaryTermsShape` states its shape |
| Glossary.CollectEntries | terms_parse.py:46-61 | The anchor loop produces the records of the anchors in order, skipping empty ids |
| Glossary.Parse | terms_parse.py:29-66 | `parse` returns the deduplicated records, and the deduplication's KeyError cannot occur |
| Roster.ShiftRarityExamples | operators_list_get.py:46-47 | A missing rarity becomes "1", "0" becomes "1", "5" becomes "6", and a non-number raises |
| Roster.ShiftRaritySpec | operators_list_get.py:46-47 | The shift succeeds exactly when the raw rarity, or "0" when it is empty, is an integer; the shifted value reads back as one more than it |
| Roster.ShiftRarity | operators_list_get.py:46-47 | Defines `str(int(raw or '0')+1)`, with None where `int` raises; `ShiftRaritySpec` and `ShiftRarityExamples` state what it gives |
| Roster.MappingDistinct | config.py:44-53 | No two attributes of the mapping map to the same field |
| Roster.MappingFields | config.py:44-53 | The mapping's fields are exactly the eight record fields |
| Roster.FieldsSpec | operators_list_get.py:50 | The record built from the mapping has exactly the mapped fields, each with the value of its own attribute |
| Roster.OperatorSpec | operators_list_get.py:41-51 | A div fails with ValueError exactly when its rarity is not an integer; otherwise its record holds every stripped attribute, "" when absent, under its field, and the rarity shifted by one |
| Roster.OperatorOf | operators_list_get.py:43-50 | Defines the record of one div, or the ValueError of its rarity; `OperatorSpec` and `OperatorKeys` state its fields |
| Roster.OperatorKeys | operators_list_get.py:43-50 | A record has exactly the eight fields |
| Roster.MapOkSpec | operators_list_get.py:41-51 | Either every div succeeds and the records are theirs, in order, or the error is that of the first div that fails |
| Roster.RosterSpec | operators_list_get.py:32-54 | A missing container raises RuntimeError; otherwise, unless a rarity raises ValueError, one record per direct child div, in document order, each with exactly the eight fields; `parse_ops` in get_operator.py:49-75 is the same code |
| Roster.Roster | operators_list_get.py:32-54 | Defines what `parse` returns or raises; `RosterSpec` states it record by record |
| Roster.ReadOperator | operators_list_get.py:43-50 | One div's stripping, rarity shift and field mapping give its record |
| Roster.FillFields | operators_list_get.py:50 | The record holds each attribute's value under its field |
| Roster.ParseDivs | operators_list_get.py:41-51 | The loop over the divs gives each div's record in order, and the first error ends it |
| Roster.ParseRoster | operators_list_get.py:32-54 | `parse` returns or raises what `Roster` defines |
| Roster.RosterSortable | operators_list_get.py:59 | Every record `parse` returns has an integer rarity and a name, so the sort key never raises |
| Roster.PrecedesAsymmetric | operators_list_get.py:59 | No two records each sort before the other |
| Roster.NotPrecedesTransitive | operators_list_get.py:59 | "Not after" under the sort key is transitive |
| Roster.Insert | operators_list_get.py:59 | Inserting one record into the ordered prefix keeps the prefix ordered and the multiset of records, and leaves the rest alone |
| Roster.SortRoster | operators_list_get.py:59 | The sort reorders the list in place into a permutation ordered by rarity descending, then by name ascending; the sort in `save_json` (get_operator.py:83) is the same |
| Legacy.Txt | parse_operator.py:40-44 | No tag gives ""; a tag gives its stripped text with the "（+）" marker deleted, which is what `clean_text` gives |
| Legacy.DescText | parse_operator.py:46-58 | `_clean_desc` drops the four noise-span styles before `_txt`, and agrees with `clean_desc` |
| Legacy.RowPairsSpec | parse_operator.py:129-133 | A row of n cells gives n / 2 pairs; pair q is cell 2q, under its canonical key or verbatim, with cell 2q+1 |
| Legacy.TrailingCellIgnored | parse_operator.py:131 | An odd trailing cell contributes nothing |
| Legacy.PairedExtraSpec | parse_operator.py:127-133 | A key is present exactly when some pair carries it, and a later pair overwrites an earlier one |
| Legacy.PairedExtra | parse_operator.py:115-133 | Defines the older extra-attribute dict; `PairedExtraSpec`, `RowPairsSpec` and `UnknownLabelKept` state its keys and values |
| Legacy.UnknownLabelKept | parse_operator.py:133 | A label outside the six known ones is kept verbatim as a key |
| Legacy.FillPairedExtra | parse_operator.py:115-133 | The older extra-attribute loop gives the dict defined by `PairedExtra` |
| Legacy.FillPairs | parse_operator.py:129-133 | The pairwise loop over one row's cells assigns each pair in turn |
| Legacy.NonEmptySpec | parse_operator.py:280-282 | The type's parts are exactly the non-empty tooltip texts, in order |
| Legacy.Outcome | parse_operator.py:260-305 | An IndexError exactly when the loop raised one; otherwise the skill carries its number and unlock condition |
| Legacy.SkillRow | parse_operator.py:272-303 | One iteration of the older loop is one step of its machine |
| Legacy.Step | parse_operator.py:272-303 | Defines one step of the older skill machine; `SkillRow` is proved to take it, and `MachineIsClosedForm` gives its closed form |
| Legacy.SkillRows | parse_operator.py:269-303 | The older row loop ends in the state the machine reaches after all rows, at the `break` after the remark, or at an IndexError |
| Legacy.ParseSingleSkill | parse_operator.py:260-305 | The older `parse_single_skill` gives the skill or error its machine defines |
| Legacy.SingleSkill | parse_operator.py:260-305 | Defines the older skill of one table; `SingleSkillFails` and `SingleSkillFields` state when it fails and what it holds |
| Legacy.MachineIsClosedForm | parse_operator.py:260-305 | The older machine equals its closed form |
| Legacy.SingleSkillFails | parse_operator.py:260-305 | The older machine raises IndexError exactly when row 0 has fewer than three data cells, or when the remark row it reads has none |
| Legacy.SingleSkillFields | parse_operator.py:260-305 | A parsed skill has its number and unlock condition; the name and the non-empty tooltip texts of row 0; the levels of rows 8 and 11 when they have at least five cells; a remark only from the last row after a `th` row |
| Legacy.NextLogoTable | parse_operator.py:312 | Finds the first later sibling table whose class is `wikitable nomobile logo` |
| Legacy.NextLogoTableSpec | parse_operator.py:312 | No logo table is passed over, and none is found exactly when there is none |
| Legacy.Tables | parse_operator.py:308-316 | The walk collects no more tables than it has tries left |
| Legacy.TablesShape | parse_operator.py:308-316 | Every table collected is a sibling with the wikitable class; the first is the table the walk starts from, and every later one is a logo table |
| Legacy.FindTables | parse_operator.py:308-316 | The walk gives the tables defined by `Tables`, at most three |
| Legacy.NumberedSkills | parse_operator.py:319-320 | One skill per table when none fails |
| Legacy.NumberedSkillsSpec | parse_operator.py:319-320 | Every table gives exactly one skill, whatever its name, numbered by position; the whole fails exactly when some table's machine does |
| Legacy.SkillsOfShape | parse_operator.py:235-323 | No header gives []; a header outside any `h2` raises AttributeError; otherwise at most three tables, and one skill per table numbered from 1, unless a table raises |
| Legacy.SkillsOf | parse_operator.py:235-323 | Defines the older `parse_skills`; `SkillsOfShape` states its result |
| Legacy.ParseSkills | parse_operator.py:235-323 | The older `parse_skills` gives what `SkillsOf` defines |
| Legacy.ParseTables | parse_operator.py:319-320 | The numbering loop gives one skill per table, or the first IndexError |
| LegacyParser.LegacyRecordShape | parse_operator.py:492-511 | The record fails exactly when the talents or the skills raise; otherwise it has the name, the five base tiers, at most two talents, at most three skills numbered from 1, and distinct terms |
| LegacyParser.LegacyRecord | parse_operator.py:492-511 | Defines the record of a parsed page in the older parser; `LegacyRecordShape` states its shape |
| LegacyParser.SingleOperatorParser.constructor | parse_operator.py:67-69 | The parser holds the page and no soup |
| LegacyParser.SingleOperatorParser.GetSoup | parse_operator.py:71-76 | The page's content is parsed only when no soup is held yet, and the same soup is returned afterwards |
| LegacyParser.SingleOperatorParser.ParseAttrs | parse_operator.py:78-135 | The base tiers of the base table, and the pairwise extra attributes |
| LegacyParser.SingleOperatorParser.ParseChara | parse_operator.py:137-162 | The characteristic of the trait table |
| LegacyParser.SingleOperatorParser.ParseTalents | parse_operator.py:164-233 | The talents, by the same machine as the detail parser |
| LegacyParser.SingleOperatorParser.ParseSkills | parse_operator.py:235-323 | The older skills, or their error |
| LegacyParser.SingleOperatorParser.ParseTerms | parse_operator.py:325-490 | The uncapped terms |
| LegacyParser.SingleOperatorParser.ParseAll | parse_operator.py:492-511 | The five extractors read one soup, and an exception of the talents or the skills escapes |
| LegacyParser.ParseSingleOperator | parse_operator.py:514-579 | Nothing for a name that strips to empty, or when the browser or the page load fails; nothing when the parse raises; otherwise the record of the stripped name |
| DetailParser.LoadedOnce | operators_detail_parse.py:173-178 | A soup, once loaded, is kept whatever page is open later; there is no soup only without both a soup and a page |
| DetailParser.DetailRecordShape | operators_detail_parse.py:610-629 | A parsed page fails only when a talent table raises; otherwise the record has the name, the five base tiers, at most the six canonical extra keys, at most two talents, at most three named skills, and distinct terms, at most 20 |
| DetailParser.DetailRecord | operators_detail_parse.py:610-629 | Defines the record of a parsed detail page; `DetailRecordShape` states its shape |
| DetailParser.OperatorDetailParser.constructor | operators_detail_parse.py:20-33 | The stripped name, its page URL (none for an empty name), no page and no soup |
| DetailParser.OperatorDetailParser.GetSoup | operators_detail_parse.py:173-178 | The open page is parsed only when no soup is held yet; the page is unchanged |
| DetailParser.OperatorDetailParser.ParseAttrs | operators_detail_parse.py:180-248 | AttributeError without a soup; otherwise the base tiers and the exact-label extra attributes |
| DetailParser.OperatorDetailParser.ParseChara | operators_detail_parse.py:250-273 | AttributeError without a soup; otherwise the characteristic of the trait table |
| DetailParser.OperatorDetailParser.ParseTalents | operators_detail_parse.py:275-337 | AttributeError without a soup; otherwise the talents or their IndexError |
| DetailParser.OperatorDetailParser.ParseSkills | operators_detail_parse.py:339-443 | AttributeError without a soup; otherwise the named skills |
| DetailParser.OperatorDetailParser.ParseTerms | operators_detail_parse.py:445-608 | No terms without a soup, since the outer `except` catches the error; otherwise the capped terms, for a page that answers |
| DetailParser.OperatorDetailParser.ParseAll | operators_detail_parse.py:610-629 | The five extractors read one soup; without one the first raises AttributeError, and an IndexError of the talents escapes |
| DetailParser.OperatorDetailParser.Run | operators_detail_parse.py:643-675 | Nothing for an empty name; otherwise the open page is closed afterwards, nothing when it could not be opened or the parse raised, and the record otherwise |

## Left out

- DetailParser.OperatorDetailParser.Run: `_init_browser_page` as intended, with the page
  loaded or not as the `loaded` input says. As written it never returns for a non-empty name.
  It holds `_lock` (operators_detail_parse.py:122) while it calls `init_shared_browser`, which
  takes the same lock again (operators_detail_parse.py:39). An `asyncio.Lock` is not
  re-entrant, so the second acquisition waits forever. The model does not capture that hang.
- The shared browser, its lock and the retry loop (operators_detail_parse.py:36-170):
  these are concurrency and browser calls. What `_init_browser_page` leaves is the `loaded`
  input of `Run`. Starting the browser and loading the page in `parse_single_operator` are
  the `loaded` input of `ParseSingleOperator`.
- Hover, scroll, locator, `inner_text` and mouse calls, and the escaping of CSS selectors.
  These are the browser's work. The oracle `probe(i)` stands for them: it gives a tooltip's
  strong texts, other parts and whole text, or no tooltip, a failing call, or a crash.
- `page.evaluate` in the detail `parse_terms`: the `answers` flag stands for it.
- The check for a tooltip class in the hover loop is not modelled
  (operators_detail_parse.py:491-496). The candidate filter already requires such a class,
  so that branch never runs.
- The page content is fixed. The text a tooltip shows does not depend on what was hovered
  before.
- HTML parsing, selector matching and `find_next`. The located tables, headers and sections
  are inputs (`Soup.Soup`, `Roster.RosterPage`, `Glossary.GlossaryPage`). The trait table's
  `find("tr", string=…)` and `find_next_sibling("tr")` are modelled on the table's tree
  (`Characteristic.BranchSearch`, `Characteristic.TraitRow`), as are the sibling walks over the
  skill tables.
- HTTP fetches, the JSON writes of `save`, `save_json` and `parse_single_operator`, logging,
  printing, and the `metadata` part of `parse_all` (a timestamp and constants). These are
  I/O and the clock. `clean_filename`'s only caller builds an output path.
- `total_success` and `total_failed` in both `parse_terms`: only logged.
- The database modules, main.py, prts_parse.py and parse_term.py are not part of this model.
- Utils.CleanDesc: `replace_with` mutates the caller's tag in place. The model computes the
  pruned copy, so it does not capture that the caller's tree is changed.
- DetailParser.OperatorDetailParser.ParseAll: `parse_chara` and `parse_talents` run before
  `parse_terms` (operators_detail_parse.py:624-628), and their `clean_desc` calls delete the
  noise spans of the trait list items and of the talent potential spans from the shared soup
  (utils.py:66-72). The model reads the terms from the content as loaded, so it does not
  capture that pruning.
- LegacyParser.SingleOperatorParser.ParseAll: the same holds for `_clean_desc`
  (parse_operator.py:51-57) in `parse_chara` and `parse_talents`, which run before
  `parse_terms` (parse_operator.py:506-510). The model does not capture that pruning.
- DetailParser.DetailRecord: the terms are computed over the content before pruning. A tooltip
  candidate that lies inside a pruned noise span, or is one, is gone in the source but is a
  candidate here. A candidate holding a pruned span has a shorter name in the source, and that
  name can fall below the minimum term length. Either way the candidate list, and which probe
  answer belongs to which candidate, can differ from the model's.
- LegacyParser.LegacyRecord: the terms are computed over the content before pruning, with the
  same consequences as for `DetailParser.DetailRecord`.
- Attributes.HeaderCells: only rows inside the table are considered. A `th` of the table whose
  only first-child `tr` ancestor lies outside the table (a table nested in such a row) is
  matched by `tr:first-child th` in the source but is not a header cell here.
- Strings.IsDigit: Python's `isdigit` accepts every Unicode digit. The model accepts ASCII,
  fullwidth and superscript digits.
- Strings.Lower: `lower()` is modelled on ASCII letters only. The wiki's labels are Chinese,
  which has no case.
- Strings.ParseInt: `int()` is modelled for an optional sign followed by ASCII digits. It
  does not model surrounding whitespace, underscores or other Unicode digits.
- Roster.SortRoster: the sort is not stated to be stable the way Python's `list.sort` is.
  Records with equal keys may end up in another order.
- parse_operator.py:60-63 is a character-for-character copy of `clean_filename`, so
  `Utils.CleanFilename` models both.
- The base-attribute fill, trait table and talent machine of parse_operator.py
  (parse_operator.py:82-113, 137-162, 164-233) are the same code as in the detail parser, and
  are modelled once, in `Attributes`, `Characteristic` and `Talents`.
