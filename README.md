# Personal records manager — a Dafny model of its record core

The application keeps a single table of personal records (awards,
competitions, certificates, education, practice, projects). Each record has an
id, a title, a category, a level, an organization, notes and a creation
timestamp. The user adds records through a form, narrows the list with a
category selector and a level selector, exports the view as text, and deletes
records one at a time. This project models that record core over
`seq<Record>` and strings:

- `Store` (`store.dfy`) has the record type and the boolean masks the
  application selects rows with (`Where`). It has adding a record from the
  form (`Add`: an empty title is refused, the id is 1 or the largest id plus
  1, the record goes last) and deleting by id (`Delete`). It also has the
  invariant that every collection built by a session of submissions and
  deletions keeps (`WellFormed`, `Replay`).
- `Filtering` (`filtering.dfy`) has the two selectors, each switched off by
  the sentinel `"全部"`, and the option lists the selectors offer.
- `Formatting` (`formatting.dfy`) has the `markdown` and `simple` export
  texts. They are specification functions, and `FormatOutput` builds them
  piece by piece in loops, as the application does.
- `Scenario` (`scenario.dfy`) is a worked session. Two submissions go into an
  empty store, then comes a category filter, then the simple export, then a
  deletion.

Points where the model follows the code:

- The markdown title line starts with a space (`" " + title`), as the code
  writes it.
- The title check is a plain emptiness test, so a title made of spaces is
  stored.
- Ids are the largest id plus 1, not a running counter. So deleting the
  newest record frees its id, and the next record gets it again
  (`Store.DeletedNewestIdIsReused`). Ids stay unique within the collection.
- The category and level choices are the form's Chinese option lists
  (`Store.Categories`, `Store.Levels`). The English names of the categories
  are only glosses.

## Model

| member | source | states |
|---|---|---|
| `Store.Where` | 444.py:79-83 | a boolean mask keeps exactly the records that satisfy it: a record is in the result iff it is in the input and passes the mask; the result is no longer than the input |
| `Store.WhereIsSubsequence` | 444.py:79-83 | the masked rows are a subsequence of the input: order is kept and nothing is invented |
| `Store.WhereCounts` | 444.py:79-83 | each kept record appears as often as in the input, each dropped record not at all |
| `Store.WhereKeepsAll` | 444.py:79-83 | a mask every record passes returns the input unchanged |
| `Store.WhereCommutes` | 444.py:79-83 | two masks applied in either order give the same rows |
| `Store.WhereIdempotent` | 444.py:145 | applying the same mask twice equals applying it once |
| `Store.MaxId` | 444.py:58 | the largest id is at least every id in the collection and is the id of some record |
| `Store.NextId` | 444.py:58 | the next id is 1 for an empty collection, otherwise it exceeds every id and is some record's id plus 1 |
| `Store.Add` | 444.py:53-62 | an empty title leaves the collection unchanged and reports the missing title; any other title grows the collection by exactly one record, keeps the old records as the prefix, and puts the form's fields and the timestamp last under an id that is 1 for an empty collection and otherwise the largest id plus 1, above every existing id |
| `Store.Delete` | 444.py:145 | the result holds exactly the records whose id differs from the target |
| `Store.DeleteIsSubsequence` | 444.py:145 | the records left after a delete keep their original order |
| `Store.DeleteAbsent` | 444.py:145 | deleting an id that no record carries changes nothing |
| `Store.DeleteIdempotent` | 444.py:145 | deleting the same id twice equals deleting it once |
| `Store.DeleteRemovesOne` | 444.py:145 | with unique ids, deleting the id of the record at position k removes exactly that record, and the collection shrinks by one |
| `Store.WellFormedUniqueIds` | 444.py:58 | strictly increasing ids are unique ids |
| `Store.NextIdFollowsLast` | 444.py:58 | in a well-formed collection the next id is the last record's id plus 1 |
| `Store.AddPreservesWellFormed` | 444.py:41-62 | adding a form entry keeps ids positive and increasing, titles non-empty, and categories and levels among the form's choices |
| `Store.WherePreservesWellFormed` | 444.py:79-83 | masking a well-formed collection gives a well-formed collection |
| `Store.DeletePreservesWellFormed` | 444.py:145 | deleting keeps a well-formed collection well formed |
| `Store.DeletedNewestIdIsReused` | 444.py:58 | adding a record, deleting it, and adding another gives the second record the same id as the first |
| `Store.Step` | 444.py:53-62 | one user action: a submission without a title leaves the collection unchanged; any other submission keeps the collection as the prefix and appends exactly the submitted record under the next id; a deletion keeps exactly the records with another id (the add at 444.py:53-62, the delete at 444.py:145) |
| `Store.Replay` | 444.py:115-147 | the collection after a session from an empty store has at most one record per action, and each record carries the fields and timestamp of one of the submissions |
| `Store.ReplayWellFormed` | 444.py:115-146 | every collection that a session of form submissions and deletions builds from an empty store is well formed and has unique ids |
| `Filtering.ByCategory` | 444.py:79-80 | at "全部" the category selector returns its input; otherwise it keeps exactly the records of the chosen category |
| `Filtering.ByLevel` | 444.py:82-83 | at "全部" the level selector returns its input; otherwise it keeps exactly the records of the chosen level |
| `Filtering.Filter` | 444.py:77-85 | the view is no longer than the collection and holds exactly the records that pass both active selectors |
| `Filtering.FilterSpec` | 444.py:77-85 | the view is a subsequence of the collection; a record is in it iff it is in the collection and matches every active selector, as often as in the collection; with both selectors at "全部" it is the collection itself |
| `Filtering.FilterOrderIrrelevant` | 444.py:79-83 | applying the level selector before the category selector gives the same view |
| `Filtering.Unique` | 444.py:71 | the distinct values are pairwise different and are exactly the values of the column |
| `Filtering.NonEmpty` | 444.py:74 | the kept levels are exactly the non-empty ones, and distinctness is kept |
| `Filtering.CategoryOptions` | 444.py:71 | the category options start with "全部", followed by each category present in the collection exactly once, and no other value |
| `Filtering.LevelOptions` | 444.py:74 | the level options start with "全部" and never contain the empty string; after it each non-empty level present in the collection appears exactly once, and no other value |
| `Filtering.OptionsSelectSomething` | 444.py:71-83 | each option after "全部", chosen on its own, leaves at least one record in the view |
| `Formatting.MarkdownBlock` | 444.py:92-100 | a record's markdown block starts with its `" " + title` line and ends with a line break |
| `Formatting.MarkdownBlocks` | 444.py:91-100 | the record blocks are empty exactly when there are no records |
| `Formatting.MarkdownText` | 444.py:89-101 | the markdown text starts with the header `"个人经历记录\n\n"`, and is only the header exactly when there are no records |
| `Formatting.SimpleLine` | 444.py:105-109 | a record's simple line starts with the title and ends with a line break, with text between them exactly when the level is not empty |
| `Formatting.SimpleText` | 444.py:104-110 | the simple text has at least one character per record and is empty exactly when there are no records |
| `Formatting.SimpleTextExtend` | 444.py:105-109 | one more record appends exactly its line to the simple text |
| `Formatting.MarkdownTextExtend` | 444.py:91-100 | one more record appends exactly its block to the markdown text |
| `Formatting.MarkdownBlocksAppend` | 444.py:91-100 | the markdown blocks of two runs of records are the blocks of the first followed by those of the second |
| `Formatting.SimpleTextAppend` | 444.py:105-109 | the simple text of two runs of records is the text of the first followed by that of the second |
| `Formatting.SimpleLineAt` | 444.py:104-110 | the k-th record's line comes after the lines of the records before it and before the lines of those after it |
| `Formatting.MarkdownBlockAt` | 444.py:89-101 | the markdown text is the header, then the blocks of the records before k, the k-th block, and the blocks after it |
| `Formatting.SimpleTextLines` | 444.py:104-110 | when titles and levels hold no line break, the simple text has exactly one line break per record |
| `Formatting.LineLines` | 444.py:92-99 | a markdown line holds its own line break plus those inside its field |
| `Formatting.OptionalLines` | 444.py:94-99 | an optional field adds one line plus its inner line breaks when non-empty, and nothing when empty |
| `Formatting.MarkdownBlockLines` | 444.py:92-100 | with a single-line title, category, level and organization (text inputs and select boxes, 444.py:40-47), a record's block has its title line, its category line, one line for each non-empty level, organization and notes, and a blank line, plus the line breaks inside the notes, which come from a multi-line text area (444.py:49) |
| `Formatting.MarkdownTextLines` | 444.py:89-101 | with a single-line title, category, level and organization in every record, the markdown text has the header's two lines, then each record's block lines plus the line breaks inside its notes |
| `Formatting.MarkdownBlockShape` | 444.py:92-100 | each block opens with `" " + title` and `"类别: " + category` lines and ends with a blank line |
| `Formatting.FormatOutput` | 444.py:87-110 | the `markdown` mode yields the markdown text and the `simple` mode the simple text of the view |
| `Formatting.FormatMarkdown` | 444.py:89-101 | the loop's accumulated output is the header plus the blocks of the records in input order |
| `Formatting.AppendMarkdownBlock` | 444.py:92-100 | one pass of the loop appends exactly the record's block |
| `Formatting.FormatSimple` | 444.py:104-110 | the loop's accumulated output is the simple text of the records in input order |
| `Scenario.TwoSubmissions` | 444.py:41-62 | into an empty store the contest entry is stored under id 1, then an entry that fills in only its title, and so keeps the form's default category "荣誉" and empty level, under id 2, after it |
| `Scenario.CompetitionView` | 444.py:79-80 | selecting "竞赛" from a competition record and an honour record keeps only the competition record |
| `Scenario.ContestSimpleLine` | 444.py:104-110 | the simple export of the contest record is `"全国大学生数学建模竞赛 (国家级)\n"` |
| `Scenario.DeleteFirst` | 444.py:145 | deleting id 1 from records with ids 1 and 2 leaves only the second |
| `Scenario.ContestSession` | 444.py:53-145 | from an empty store, the contest record gets id 1 and the title-only record id 2; filtering on "竞赛" keeps only the contest record; its simple line is `"全国大学生数学建模竞赛 (国家级)\n"`; deleting id 1 leaves only the title-only record |

## Left out

- Every call into the Streamlit framework (page setup, forms, sidebar selectors, buttons, rerun, metrics, expander, download button) is UI plumbing. The user's choices are plain parameters: the form entry, the selector values, the export mode, the id behind a delete button.
- Loading and saving (`load_data`, `save_data`) read and write a CSV file through pandas, and saving swallows every error. The model has no persistence. Each operation returns the new collection that would be saved.
- The clock (`pd.Timestamp.now()`) is replaced by a `createdAt` parameter.
- The `csv` export mode and the download payload are pandas CSV serialisation, whose quoting rules are not part of this model.
- The category statistics (`value_counts`) are display-only, and their order is the library's.
- Pandas specifics are not modelled. An empty CSV cell reads back as NaN, which counts as true in `if row['level']`. The `id` column may be coerced to a float type. Empty fields are modelled as the empty string and ids as integers.
- Filtering.Unique: its definition keeps values in the order they first appear, but its contract states only distinctness and the set of values.
- Filtering.NonEmpty: its definition keeps the input order, but its contract states only which values are kept and that distinctness survives.
- Formatting.FormatOutput: a mode string other than the three offered makes the source return nothing. The model takes the mode from a two-valued datatype. The source's default mode (`markdown`) is not modelled either: the only caller always passes the mode explicitly.
