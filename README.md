# AI news archive: a verified model of the deduplicating news store

The repository keeps a running archive of AI news items. It does so in two
parallel ways:

- **File archive** (`app/tools/file_tools.py`). Markdown with one `## <date>`
  section per day and one `* <text> - [<domain>](<url>)` bullet per item.
  `merge_news_content` folds a newly gathered batch into the archive. It adds
  only items whose case-insensitive, trimmed text has not been seen. It then
  re-renders the sections newest first, with the misc section last.
- **Document store** (`app/tools/firestore_tools.py`). A Firestore collection
  of news records, keyed by a hash of the item's URL, or of its title when
  there is no URL. An item's identity is its URL. Batch insertion looks up
  the URLs already stored in chunks of 30 and writes only the unseen items.
  A reader groups the stored items by date and renders them as markdown.

The Dafny project is split the way the code is:

- `text.dfy` (module `Text`): the string primitives both files use, as Python
  defines them. These are `strip`, `lower`, `startswith`, `in`, `split`,
  `join` and `replace` with the empty string.
- `markdown.dfy` (module `Markdown`):
  - the line parser that both `parse_markdown_content` functions share,
    generic in how a bullet becomes an item;
  - the bullet extractor that both `extract_news_items_from_text` functions
    share;
  - the leftmost match of the link pattern `\[([^\]]+)\]\(([^)]+)\)`.
- `dates.dfy` (module `Dates`):
  - `parse_date_for_sorting`, as a parser over its eight `strptime` formats,
    producing a (year, month, day) key;
  - the stable descending sort that `sort(key=..., reverse=True)` and
    `sorted(..., reverse=True)` perform.
- `file_tools.dfy` (module `FileTools`): the file archive's `NewsItem`, its
  parser and extractor, `find_unseen_news` and `merge_news_content`. The
  merge is an imperative method proved against a specification function,
  with read-back theorems about that function.
- `firestore_tools.dfy` (module `FirestoreTools`):
  - the store's `NewsItem` and `get_document_id`;
  - its parser, extractor and `find_unseen_news`;
  - the group-and-render step of `get_news_from_firestore_tool`;
  - a class `NewsStore` whose field `docs` maps document ids to records. Its
    methods are `add_news_item`, `add_news_items_batch`, `delete_news_item`,
    `get_news_by_date` and `get_news_by_domain`.

**Parameters standing in for the outside world.** The store's SHA-256
becomes a parameter `sha: string -> Digest`, where a `Digest` is any string
of 64 hex digits. `urlparse(url).netloc` becomes a parameter
`netloc: string -> string`. The clock reading `datetime.utcnow()` becomes an
argument `now`. A store exception becomes an argument `fault`: when it is
true, the method takes the code's `except` branch.

**What the code does, where its comments say otherwise.** The model follows
the code, and each of these behaviours is stated and proved:

- **Unparseable labels sort first, not last.** The sort runs with
  `reverse=True`, so the sentinel date 9999-12-31 comes before every real
  date. See `Dates.UnparseableFirst` and
  `FirestoreTools.MiscListedFirst`.
- **The file archive loses an item's domain when it re-renders.** It writes
  the URL into the link text. See `FileTools.DomainLostOnRender`.
- **URL-less items are written.** When a batch mixes items with and without
  URLs, the URL-less ones are written rather than skipped. See
  `FirestoreTools.BatchStagesFresh`.
- **Duplicates within one call are kept.** The stored URLs are looked up
  once, before the writes, and the set of URLs found is not updated while
  the items are staged. So a URL repeated in one batch and not yet stored
  is written, and counted, once per occurrence; the later write replaces
  the earlier one. See `FirestoreTools.BatchKeepsRepeatedUrl` and
  `FirestoreTools.FindUnseenAppend`.
- **A repeated batch adds nothing, except URL-less items.** Running the same
  batch again writes nothing when every item has a URL and distinct URLs
  get distinct ids. Items without a URL are written again on every run.
  See `FirestoreTools.RepeatBatchAddsNothing`.
- **The seen set grows one section at a time.** The file merge adds a
  section's items to its seen set only after filtering the whole section, so
  repeats inside one new section are all appended. See
  `FileTools.MergeKeepsRepeats` and `FileTools.AddedIff`.
- **Items without a date.** The store's reader files them under "Misc".
  Since "Misc" reads as no date, it is listed before every dated section.
  See `FirestoreTools.UndatedUnderMisc`, `Dates.MiscIsSentinel` and
  `FirestoreTools.MiscListedFirst`.

## Model

| member | source | states |
|---|---|---|
| Text.JoinSplit | app/tools/file_tools.py:34 | joining the pieces of a split with the separator gives the original string back |
| Text.SplitJoin | app/tools/file_tools.py:167 | splitting a separator-joined, non-empty list of pieces that hold no separator gives the pieces back |
| Markdown.MatchAtExact | app/tools/file_tools.py:49 | the link matcher at a position succeeds with a link exactly when `[domain](url)` with a non-empty `]`-free domain and a non-empty `)`-free url starts there |
| Markdown.FindLinkLeftmost | app/tools/file_tools.py:49 | the search finds nothing exactly when no link occurs, and otherwise returns a link occurring at a position before which none starts, as `re.search` does |
| Markdown.BulletTextWithLink | app/tools/file_tools.py:46-53 | bullet text `t - [domain](url)` with plain `t` splits into the text `t` and that link, the ` - [domain](url)` suffix being removed from the text |
| Markdown.BulletTextPlain | app/tools/file_tools.py:46-55 | bullet text with no `[` keeps its whole text and carries no link |
| Markdown.HeadingLine | app/tools/file_tools.py:39-41 | the line `## name` for a non-empty trimmed name is read as a heading with that very name |
| Markdown.BulletLine | app/tools/file_tools.py:44-46 | the line `* t` for a non-empty trimmed `t` is read as a bullet whose text is parsed from `t` |
| Markdown.ParseMarkdownSections | app/tools/file_tools.py:29-59 | the line loop leaves a well-formed section map (each label listed once, keys and map agree) equal to the left fold of the per-line step over the split lines |
| Markdown.ParseValid | app/tools/firestore_tools.py:265-296 | parsing any sequence of lines gives a section map with distinct labels whose listed labels are exactly its keys |
| Markdown.ParseFromAppend | app/tools/file_tools.py:35-57 | parsing lines `a + b` is parsing `b` from the state reached after `a` |
| Markdown.LeadingLinesDropped | app/tools/firestore_tools.py:275-280 | lines before the first `## ` heading do not change the parse: bullets there are dropped |
| Markdown.LastHeadingWins | app/tools/firestore_tools.py:275-277 | a heading seen again resets its section: afterwards it holds exactly the items under its last occurrence, and its place in the order is where it first appeared |
| Markdown.BulletsAppend | app/tools/file_tools.py:44-57 | bullet lines under the current heading append their items, in order, to that section only |
| Markdown.ItemsCarryTheirLabel | app/tools/firestore_tools.py:290-294 | every parsed item was built from some bullet together with the label of the section it sits in |
| Markdown.ExtractBulletItems | app/tools/file_tools.py:62-82 | the extraction loop returns the items of the bullet lines, in order, whatever headings surround them |
| Dates.ParseDateFirstMatch | app/tools/file_tools.py:138-149 | the key is the date read by the first of the eight formats, in their fixed order, that matches, and 9999-12-31 when none does |
| Dates.SentinelIsLatest | app/tools/firestore_tools.py:385-406 | every key is a real calendar date and none is later than the sentinel 9999-12-31 |
| Dates.NoYearlessLeapDay | app/tools/firestore_tools.py:394-397 | a format without a year reads dates in 1900, which has no 29 February |
| Dates.OneWordIsSentinel | app/tools/firestore_tools.py:389-404 | a one-word label matches no format and gets the sentinel key |
| Dates.MiscIsSentinel | app/tools/file_tools.py:146-147 | "Misc" gets the sentinel key |
| Dates.FormatDateRoundTrip | app/tools/file_tools.py:141-143 | a valid date written as `%d %b %Y` reads back as that date |
| Dates.FormatYearlessRoundTrip | app/tools/file_tools.py:141-143 | a valid day written as `%b %d` reads back as that day of 1900 |
| Dates.ExampleDated | app/tools/firestore_tools.py:389-400 | "15 Dec 2025" reads as 2025-12-15 |
| Dates.ExampleYearless | app/tools/firestore_tools.py:389-400 | "Dec 15" reads as 1900-12-15 |
| Dates.SortDescSorted | app/tools/file_tools.py:151 | the sort returns a permutation of its input in descending key order |
| Dates.SortDescStable | app/tools/file_tools.py:151 | labels with equal keys keep their relative order, as Python's stable sort keeps them under `reverse=True` |
| Dates.UnparseableFirst | app/tools/file_tools.py:146-151 | once sorted, every label before one with the sentinel key has the sentinel key too: unparseable labels come first |
| FileTools.MakeItem | app/tools/file_tools.py:9-12 | an item's text and url are stored without surrounding whitespace |
| FileTools.MakeItemStrips | app/tools/file_tools.py:9-12 | the stored text and url are exactly the given ones with surrounding whitespace removed |
| FileTools.MakeItemTrimmed | app/tools/file_tools.py:9-12 | text and url that are already trimmed are stored as given |
| FileTools.SameItemIffTextsMatch | app/tools/file_tools.py:14-21 | two items are the same exactly when their stripped, lower-cased texts are equal; the url plays no part |
| FileTools.RenderParse | app/tools/file_tools.py:23-26 | a rendered item line reads back as the same text and url |
| FileTools.DomainLostOnRender | app/tools/file_tools.py:25 | a bullet `t - [d](u)` parses to text `t` and url `u`, and re-rendering gives the same line exactly when `d == u` |
| FileTools.ParseMarkdownContent | app/tools/file_tools.py:29-59 | the parser returns a well-formed section map equal to the line fold over the content split at `\n` |
| FileTools.ExtractNewsItems | app/tools/file_tools.py:62-82 | the extractor returns the items of the bullet lines in order |
| FileTools.FindUnseen | app/tools/file_tools.py:85-87 | an item is kept exactly when it is in the new items and its key is not among those seen, and no more items are returned than were given |
| FileTools.FindUnseenOne | app/tools/file_tools.py:85-87 | a single item is kept exactly when its key is unseen |
| FileTools.FindUnseenAppend | app/tools/file_tools.py:85-87 | filtering a concatenation is concatenating the filtered parts, so the order and repeats of the kept items are those of the input |
| FileTools.FindUnseenKeepsAll | app/tools/file_tools.py:85-87 | when nothing is seen, every item is kept, in order |
| FileTools.FindUnseenKeys | app/tools/file_tools.py:113-118 | adding the unseen items' keys to the seen set gives the same set as adding all new items' keys |
| FileTools.SeenInKeys | app/tools/file_tools.py:99-101 | a key is seen exactly when some item of some listed section has it |
| FileTools.CollectSeen | app/tools/file_tools.py:99-101 | the loop collects exactly the keys of every existing item |
| FileTools.MergeSection | app/tools/file_tools.py:109-118 | one pass of the merge loop performs the merge step: the section is created if missing, extended by its unseen items, and their keys join the seen set |
| FileTools.MergeInto | app/tools/file_tools.py:107-118 | the merge loop yields a well-formed section map equal to the specified merge of existing and new sections |
| FileTools.MergeClosedForm | app/tools/file_tools.py:107-118 | after the merge, the existing labels come first and new labels follow in first-seen order; each section holds its existing items followed by those of its new items unseen in the archive and in all earlier new sections |
| FileTools.ExistingKeysIff | app/tools/file_tools.py:99-101 | a key is in the initial seen set exactly when some existing section holds an item with it |
| FileTools.AddedIff | app/tools/file_tools.py:109-118 | an item is appended from the i-th new section exactly when it is in that section, its key was not in the archive, and no earlier new section held an item with its key |
| FileTools.MergeSectionsShape | app/tools/file_tools.py:107-118 | the merged map keeps every existing section, untouched unless new items arrive for it, and adds the new labels after the existing ones |
| FileTools.MergeAddsNoDuplicate | app/tools/file_tools.py:99-118 | no appended item equals an item already in the archive |
| FileTools.MergeAddsOnce | app/tools/file_tools.py:113-118 | items appended from two different new sections are never equal |
| FileTools.MergeKeepsRepeats | app/tools/file_tools.py:113-118 | an unseen item repeated inside one new section is appended every time |
| FileTools.DatedNamesMembers | app/tools/file_tools.py:131-135 | the sections sorted by date are exactly the labels that do not contain "misc" |
| FileTools.MiscNameIn | app/tools/file_tools.py:131-133 | a misc section that is picked is one of the labels and contains "misc" |
| FileTools.MiscNameIsLast | app/tools/file_tools.py:131-135 | there is no misc section exactly when no label contains "misc"; otherwise it is the last such label, and the earlier ones are dropped |
| FileTools.SplitMisc | app/tools/file_tools.py:128-135 | the loop splits the labels into the dated ones, in order, and the last misc one |
| FileTools.SectionOrderFacts | app/tools/file_tools.py:151 | the dated sections are written each once, and they are exactly the labels without "misc" |
| FileTools.AppendItems | app/tools/file_tools.py:157-158 | the loop appends one rendered line per item, in order |
| FileTools.AppendDated | app/tools/file_tools.py:154-159 | the loop appends heading, item lines and a blank line for each non-empty dated section, in the given order |
| FileTools.AppendSection | app/tools/file_tools.py:154-158 | one dated section contributes its heading, its rendered items and a blank line when it has items, and nothing when it is empty |
| FileTools.AppendSections | app/tools/file_tools.py:153-165 | the loops append the dated sections in date order and then the misc section, if it has items, with no blank line after it |
| FileTools.MergeNewsContent | app/tools/file_tools.py:90-167 | the method returns the new content unchanged when the archive is blank, and otherwise the `\n`-joined title and section lines of the merged archive |
| FileTools.EmittedFacts | app/tools/file_tools.py:153-165 | a section is written exactly when it has items and either has no "misc" in its name or is the misc section picked; dated sections come in descending date order; only the last section written can be a misc one |
| FileTools.NonEmptyDescending | app/tools/file_tools.py:154-155 | leaving out empty sections keeps the descending date order |
| FileTools.TitleIff | app/tools/file_tools.py:124-125 | the output's first line is `# AI news` exactly when the stripped existing content begins with `# ` |
| FileTools.ArchiveReadsBack | app/tools/file_tools.py:120-165 | parsing the output lines gives back the merged map, restricted to the sections written |
| FileTools.ArchiveFileReadsBack | app/tools/file_tools.py:90-167 | parsing the merged archive text gives back the merged map, restricted to the sections written |
| FirestoreTools.MakeItem | app/tools/firestore_tools.py:14-24 | an item's title and url are stored stripped, and its date as given |
| FirestoreTools.DomainAbsentIffNoUrl | app/tools/firestore_tools.py:24 | the domain is absent exactly when the url given is empty; otherwise a non-empty given domain is kept, else it is derived from the url |
| FirestoreTools.BlankUrlKeepsDomain | app/tools/firestore_tools.py:22-24 | a url of one space is stored empty, yet the given domain is kept, because the test is on the unstripped url |
| FirestoreTools.SameItemIffUrlsMatch | app/tools/firestore_tools.py:44-51 | two items are the same exactly when their stripped urls are equal; title, date and domain play no part |
| FirestoreTools.DocumentIdOf | app/tools/firestore_tools.py:34-42 | with a url the id is `news_` plus 20 hex digits, 25 characters in all; without one it is 20 hex digits |
| FirestoreTools.DocumentIdByUrl | app/tools/firestore_tools.py:40-42 | items with the same non-empty url get the same id, whatever their titles |
| FirestoreTools.DocumentIdsApart | app/tools/firestore_tools.py:36-42 | an item with a url and one without never share an id |
| FirestoreTools.ToRecord | app/tools/firestore_tools.py:53-61 | a record holds the item's title, url, date and domain, and the time of writing |
| FirestoreTools.MakeItemSettled | app/tools/firestore_tools.py:21-24 | an item built from a trimmed url is one that rebuilding from its own fields leaves unchanged |
| FirestoreTools.RecordRoundTrip | app/tools/firestore_tools.py:53-71 | reading back the record written for such an item gives back the item |
| FirestoreTools.BlankUrlLosesDomain | app/tools/firestore_tools.py:21-24 | an item given a blank url and a domain does not survive the store round trip: its domain is dropped when it is read back |
| FirestoreTools.RenderParse | app/tools/firestore_tools.py:73-76 | a rendered item with a url and a domain reads back, under its date, as the same item |
| FirestoreTools.UrlLostWithoutDomain | app/tools/firestore_tools.py:74-76 | an item with a url but no domain renders without its link, so it reads back with no url |
| FirestoreTools.ParseMarkdownContent | app/tools/firestore_tools.py:265-296 | the parser returns a well-formed section map equal to the line fold over the content split at `\n` |
| FirestoreTools.ParsedItemsDated | app/tools/firestore_tools.py:290-292 | every parsed item's date is the label of the section it is in |
| FirestoreTools.ExtractNewsItems | app/tools/firestore_tools.py:299-319 | the extractor returns the items of the bullet lines, in order |
| FirestoreTools.ExtractedDated | app/tools/firestore_tools.py:315-317 | every extracted item carries the date passed in |
| FirestoreTools.FindUnseenMembers | app/tools/firestore_tools.py:322-326 | an item is kept exactly when it is among the new items and its url is not among those seen |
| FirestoreTools.FindUnseenOne | app/tools/firestore_tools.py:161-163 | a single item is kept exactly when its url is unseen |
| FirestoreTools.FindUnseenAppend | app/tools/firestore_tools.py:161-170 | filtering a concatenation is concatenating the filtered parts, so the items staged keep the batch order and its repeats |
| FirestoreTools.FindUnseenIdempotent | app/tools/firestore_tools.py:322-326 | filtering twice against the same seen set is filtering once |
| FirestoreTools.FindUnseenKeepsRepeats | app/tools/firestore_tools.py:326 | an unseen item given twice is kept twice |
| FirestoreTools.ChunksConcat | app/tools/firestore_tools.py:147-149 | the chunks, concatenated, are the url list |
| FirestoreTools.ChunkSizes | app/tools/firestore_tools.py:147-149 | every chunk holds between 1 and 30 urls |
| FirestoreTools.ChunkCount | app/tools/firestore_tools.py:148 | there are no chunks for no urls, and otherwise n chunks with (n-1)*30 < length <= n*30, that is ceil(length/30) |
| FirestoreTools.ChunksOf65 | app/tools/firestore_tools.py:147-149 | 65 urls are split as 30, 30 and 5 |
| FirestoreTools.UrlListMembers | app/tools/firestore_tools.py:139 | a url is in the url list exactly when it is the non-empty url of some item |
| FirestoreTools.UrlListOne | app/tools/firestore_tools.py:139 | an item contributes its url, or nothing when the url is empty |
| FirestoreTools.UrlListAppend | app/tools/firestore_tools.py:139 | the list of a concatenation is the concatenation of the lists, so a url given twice is listed twice |
| FirestoreTools.OneRecordPerUrl | app/tools/firestore_tools.py:34-42 | in a store where each record sits under its item's id, no two records share a non-empty url |
| FirestoreTools.Put | app/tools/firestore_tools.py:121-123 | writing an item under its id keeps every record filed under its own id |
| FirestoreTools.Stage | app/tools/firestore_tools.py:161-174 | committing a sequence of writes keeps every record filed under its own id |
| FirestoreTools.StageIds | app/tools/firestore_tools.py:167-169 | after a batch every staged item's id is present and no earlier record is lost |
| FirestoreTools.StageOrigin | app/tools/firestore_tools.py:167-169 | after a batch every record is either an earlier record left alone or the record of a staged item, under that item's id |
| FirestoreTools.WhereUrlInFound | app/tools/firestore_tools.py:150-154 | a chunk query returns exactly the stored urls that are in the chunk |
| FirestoreTools.FoundAppend | app/tools/firestore_tools.py:148-154 | the urls found over two runs of chunks are the union of those found over each |
| FirestoreTools.BatchStagesFresh | app/tools/firestore_tools.py:161-170 | an item is staged exactly when it is in the batch and either has no url or its url is not stored |
| FirestoreTools.BatchKeepsRepeatedUrl | app/tools/firestore_tools.py:139-170 | two items with the same unstored url are both staged and counted, in batch order; with a non-empty url the store ends as if only the second were written |
| FirestoreTools.RepeatBatchAddsNothing | app/tools/firestore_tools.py:139-170 | in a keyed store, when every item has a url and distinct urls get distinct ids, the same batch run again stages nothing |
| FirestoreTools.PutOnce | app/tools/firestore_tools.py:117-123 | adding an item with an unstored url leaves exactly one record with that url, filed under the item's id |
| FirestoreTools.RemoveLeavesNone | app/tools/firestore_tools.py:253-258 | removing the record found for a url leaves no record with it, and the store well-formed |
| FirestoreTools.ByDate | app/tools/firestore_tools.py:214-226 | the query returns exactly the records whose date is the one asked for |
| FirestoreTools.ByDomain | app/tools/firestore_tools.py:228-242 | the query returns exactly the records whose domain is the one asked for |
| FirestoreTools.PutThenByDate | app/tools/firestore_tools.py:214-226 | an item just written is returned by the query for its date |
| FirestoreTools.PutThenByDomain | app/tools/firestore_tools.py:228-242 | an item just written is returned by the query for its domain |
| FirestoreTools.StageWrites | app/tools/firestore_tools.py:156-176 | the staging loop counts added and skipped items summing to the batch size, adds exactly the items whose url was not found, and stages their writes in order |
| FirestoreTools.WithLabelMembers | app/tools/firestore_tools.py:458-462 | the items grouped under a label are exactly those whose date, or "Misc" when it has none, is that label |
| FirestoreTools.GroupValid | app/tools/firestore_tools.py:457-462 | grouping gives a well-formed map: each label listed once, in order of first occurrence |
| FirestoreTools.GroupLabels | app/tools/firestore_tools.py:457-462 | the grouped labels are exactly the items' date labels |
| FirestoreTools.GroupIsFilter | app/tools/firestore_tools.py:457-462 | each group holds, in the original order, exactly the items with its label, and no group is empty |
| FirestoreTools.UndatedUnderMisc | app/tools/firestore_tools.py:459 | an item with no date, or an empty one, is listed under "Misc" |
| FirestoreTools.SortedDatesOrder | app/tools/firestore_tools.py:468-470 | the labels are written in descending date order, each once, and they are exactly the items' labels |
| FirestoreTools.MiscListedFirst | app/tools/firestore_tools.py:459-470 | every label written before "Misc" reads as no date either: the undated section precedes all dated ones |
| FirestoreTools.GroupByDate | app/tools/firestore_tools.py:457-462 | the grouping loop builds exactly the specified grouping |
| FirestoreTools.AppendItemLines | app/tools/firestore_tools.py:475-476 | the loop appends each item's rendered line and a line break, in order |
| FirestoreTools.AppendSection | app/tools/firestore_tools.py:473-477 | one pass appends the heading, the item lines and a blank line for a non-empty section, and nothing for an empty one |
| FirestoreTools.GroupAndRender | app/tools/firestore_tools.py:457-477 | the block returns `# AI news` and a blank line followed by each date's section in sorted order |
| FirestoreTools.NewsStore.constructor | app/tools/firestore_tools.py:79-106 | a new store is empty and uses the given hash and url parser |
| FirestoreTools.NewsStore.AddNewsItem | app/tools/firestore_tools.py:108-127 | the item is added exactly when no failure occurs and no record has its url; then the store gains its record under its id; otherwise nothing changes |
| FirestoreTools.NewsStore.AddNewsItemsBatch | app/tools/firestore_tools.py:129-180 | added plus skipped is the batch size; an empty batch, one with no urls, or a failure adds nothing and changes nothing; otherwise exactly the items whose url was not found are added, and the store gains their records |
| FirestoreTools.NewsStore.LookUpUrls | app/tools/firestore_tools.py:143-154 | the chunked lookup finds exactly the stored urls among those asked for |
| FirestoreTools.NewsStore.DeleteNewsItem | app/tools/firestore_tools.py:244-262 | a record is deleted exactly when no failure occurs and some record has the url; then exactly one such record is removed; otherwise nothing changes |
| FirestoreTools.NewsStore.GetNewsByDate | app/tools/firestore_tools.py:214-226 | returns the records with that date, read back as items |
| FirestoreTools.NewsStore.GetNewsByDomain | app/tools/firestore_tools.py:228-242 | returns the records with that domain, read back as items |

## Left out

- Whitespace and case are ASCII only. `Text.IsSpace` covers the ASCII whitespace Python's `str.strip` and `\s` remove. `Text.Lower` folds A-Z only. Other Unicode spaces and case mappings are not modelled.
- SHA-256 is a parameter. Its only property used is that a digest is 64 hex digits. Distinct urls may hash to the same id, so the store can overwrite an earlier record.
- `urlparse(...).netloc` is a parameter, and the `except` branch of `_extract_domain` is not modelled.
- The clock is not modelled. One `now` value is used for every record written by one call.
- The Firestore client is left out: `FirestoreNewsManager.__init__`, `_get_collection`, `create_firestore_manager` and the environment variables.
- `get_all_news` and `get_recent_news` are left out. Their result order comes from the server, and the latter orders by `created_at`.
- The store is a map from document id to record. Query results are maps from id to item, so the server's result order is not modelled. `delete_news_item` removes "the first" matching record. With a non-empty url, a well-formed store holds at most one such record (`FirestoreTools.OneRecordPerUrl`). With the empty url, several url-less records with different titles can match, and the model removes one of them without saying which.
- Store exceptions are a `fault` flag on the methods that change the store. The getters' `except` branch, which returns an empty list, is not modelled.
- `from_dict` on records with missing fields is not modelled. Records are always complete, because only `to_dict` writes them.
- File I/O and the tool wrappers are left out: the reading and writing in `write_to_file_tool`, and the timing, result dictionaries and printing in `write_to_firestore_tool` and `get_news_from_firestore_tool`. The group-and-render block is modelled.
- `app/agent.py`, `app/url_context.py` and `app/tools/tools.py` are not part of this model. They are LLM wiring, HTTP fetches and subprocess configuration.
- Dates.ParseDateForSorting: `strptime` is modelled for these eight formats only. A label is read as whitespace-separated words with no whitespace at either end, except the one space `%d` admits before a single-digit day. Days have 1-2 ASCII digits, years exactly 4, and month names are English in any letter case. Non-ASCII digits and whitespace are not modelled.
- FileTools.RenderParse: the round trip is proved for text with no `[` in it, which is stronger than "no link pattern". The domain/url restrictions are those of the link pattern.
- FileTools.ArchiveFileReadsBack: proved for merged archives whose section names are non-empty and trimmed, whose items render and read back, and whose names and fields contain no line break.
- FirestoreTools.NewsStore.AddNewsItemsBatch: when the batch writes two items to one document id, the last write wins. The contract states the resulting map rather than a per-item guarantee.
