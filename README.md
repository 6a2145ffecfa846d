# Visual archive: a Dafny model of the ingestion and retrieval bookkeeping

The system is an image archive search engine. `archive_builder.py` embeds every image
in the `images` folder with CLIP and tags it with one of six zero-shot style labels.
It writes the vectors to a FAISS inner-product index and writes a parallel list of
metadata records to `metadata.json`. Two front ends read that archive:

- the web page (`app.py`) searches the 20 nearest positions for an uploaded image and
  filters them by the selected tags;
- the chatbot (`visual_archive_bot.py`) searches the 5 nearest positions, collects
  matches and a dominant style, and phrases a reply.

This project models the bookkeeping around the two opaque collaborators: CLIP and FAISS.

- **CLIP** is a per-file `FileOutcome`. A file can fail before its vector is stored
  (`EmbeddingFailed`), fail after it (`TaggingFailed`), or succeed (`Embedded`, with a
  vector and the argmax label index).
- **A FAISS search** is a given sequence of `Hit(position, score)`. Position `-1`
  (`NoResult`) marks an unfilled column. Scores are abstract integers.
- **Loaded metadata** is a sequence of `Entry` values. Every key of an `Entry` is
  optional, because the readers use both `data[key]` (which raises on a missing key)
  and `data.get(key, default)`.

Files:

- `common.dfy`: `Option`, Python list indexing (`PyGet`, where negative positions count
  from the end) and `list.count`.
- `text.dfy`: ASCII lower-casing, `endswith`, Python's code-point order on strings, and
  insertion into a strictly sorted list.
- `archive_data.dfy`: the record as written, the record as loaded, and search hits.
- `archive_builder.dfy`: `build_archive`. `BuildArchive` is a method with the source's
  loop. It is proved equal to the function `Build`, and the lemmas are stated over
  `Ingest`, the loop's effect on the first n files.
- `web_search.dfy`: app.py.
  - `AllTags` is the pure tag list.
  - `ListResults` is the result loop, proved equal to `ListingOf`.
  - `RenderPage` is the page script.
- `archive_bot.dfy`: visual_archive_bot.py.
  - The class `VisualArchiveBot` holds `isReady` and `metadata`.
  - `ProcessInput` is the match loop, proved equal to `Collect`.
  - The dominant style is any value of maximal count.
  - `GenerateResponse` is pure.

Where the code is inconsistent with itself, the model follows the code as written and
proves the mismatch (see Findings).

- Both readers look a hit up by position: app.py:86 reads `metadata[idx]` and
  visual_archive_bot.py:77 reads `self.metadata[idx]`. That lookup is right only if the
  vector at index position k and metadata record k describe the same image. The builder
  stores the vector before tagging and uses the listing index as the id, so alignment
  and "id equals position" do not hold in general.
- The dominant style is `max(set(...), key=count)`, so among tied styles the one
  returned depends on set iteration order. The model promises only "some value of
  maximal count".
- The bot skips an index value of `-1` (visual_archive_bot.py:76). The web page has no
  such guard and reads `metadata[-1]`, the last record.

## Model

| member | source | states |
|---|---|---|
| `ArchiveBuilder.ImageFiles` | archive_builder.py:33 | a name is kept iff it is in the listing and its lower-cased form ends in .png, .jpg or .jpeg; never more names than listed |
| `ArchiveBuilder.ImageFilesAppend` | archive_builder.py:33 | the filter keeps listing order (filtering a concatenation concatenates the filtered parts) |
| `ArchiveBuilder.BuildArchive` | archive_builder.py:17-106 | the loop (skip on exception, parallel appends, write only when vectors exist) ends in exactly the status `Build` defines |
| `ArchiveBuilder.WhenWritten` | archive_builder.py:28-106 | the archive is written iff the model loaded, the folder existed and some image file got its vector stored; a missing folder gives FolderCreated; a listing with no image name gives NoImagesFound |
| `ArchiveBuilder.WrittenArchive` | archive_builder.py:41-106 | a written archive has a non-empty vector list, len(metadata) <= len(vectors) <= len(image_files), every record describes an image file with a tag from STYLE_TAGS, ids strictly increase, and the two lengths agree iff no file failed after its vector was stored |
| `ArchiveBuilder.IngestShape` | archive_builder.py:46-85 | after n files: records <= vectors <= n; each record has id < n, filename image_files[id], path folder/filename, artist "Unknown Artist", year "N/A", tag STYLE_TAGS[argmax]; ids strictly increase |
| `ArchiveBuilder.IngestNoVectors` | archive_builder.py:46-96 | the vector list is empty iff no file reached the append at line 67 |
| `ArchiveBuilder.IngestCountsEqual` | archive_builder.py:67-85 | len(metadata) == len(valid_vectors) iff no file raised after its vector was appended |
| `ArchiveBuilder.RecordCount` | archive_builder.py:46-93 | at most one record per file, and exactly one per file iff no file was skipped |
| `ArchiveBuilder.RecordsAreTaggedFiles` | archive_builder.py:46-93 | a file has a record iff it was both embedded and tagged; a skipped file does not stop later ones |
| `ArchiveBuilder.RecordOfFile` | archive_builder.py:77-85 | the record of file j comes right after the records of the files before it and carries id j |
| `ArchiveBuilder.VectorOfFile` | archive_builder.py:67 | the vector of file j comes right after the vectors of the files before it (append order) |
| `ArchiveBuilder.IdIsPosition` | archive_builder.py:78 | metadata[k].id >= k, and metadata[k].id == k iff no file before that record's file was skipped |
| `ArchiveBuilder.TaggingFailureOrphansVector` | archive_builder.py:67-74 | as written: a tagging exception on a.png leaves index position 0 holding a.png's vector while metadata[0] describes b.png |
| `ArchiveBuilder.SkippedFileShiftsIds` | archive_builder.py:46-78 | as written: after a skipped file, the record at position 0 carries id 1 |
| `ArchiveBuilder.IngestAlignedIsAligned` | archive_builder.py:67-85 | corrected loop: equal lengths; record k has id k and the vector at position k is its image's vector |
| `ArchiveBuilder.IngestAlignedSameRecords` | archive_builder.py:77-85 | the corrected loop keeps the same records in the same order as the loop as written; only the ids differ |
| `ArchiveBuilder.IngestAlignedWhenNoLateFailure` | archive_builder.py:67-85 | if no file fails between storing its vector and appending its record, the archive as written is aligned: equal lengths, and the vector at position k is the vector of the image record k describes |
| `ArchiveBuilder.IngestAlignedIff` | archive_builder.py:67-85 | the archive as written is aligned exactly when no file failed after its vector was stored |
| `Text.Insert` | app.py:43 | inserting a tag into a strictly sorted list yields a strictly sorted list holding exactly the old tags plus the new one |
| `Text.StrictlySortedUnique` | app.py:43 | two strictly sorted lists with the same elements are equal |
| `Text.LessTransitive` | app.py:43 | Python's string order is transitive |
| `Text.LessTotal` | app.py:43 | Python's string order is total on distinct strings |
| `WebSearch.AllTags` | app.py:43 | the tag list exists iff every record has a tag; it is strictly sorted (sorted, no duplicates) and holds exactly the tags present |
| `WebSearch.AllTagsIsSortedSet` | app.py:43 | any strictly sorted list of exactly the tags present equals AllTags, which is `sorted(set(...))` |
| `WebSearch.NoResultIsLastRecord` | app.py:86 | a -1 position is handled as the last record's position; on an empty list it raises |
| `WebSearch.ListingInRankOrder` | app.py:84-95 | shown cards are in search order with strictly increasing labels i+1 <= number of candidates; each card carries its candidate's score and record; under a selection each shown tag is selected |
| `WebSearch.ListingKeepsFiltered` | app.py:89-90 | when nothing raised, candidate i is shown iff the selection is empty or its tag is selected |
| `WebSearch.EmptySelectionShowsAll` | app.py:89 | with an empty selection and no exception every candidate is shown |
| `WebSearch.RaisesAtFirstFault` | app.py:84-105 | the page raises iff some candidate's lookup or key access raises |
| `WebSearch.ListResults` | app.py:81-105 | the loop shows exactly the cards `ListingOf` defines; without an exception `results_found` is the number of cards |
| `WebSearch.RenderPage` | app.py:21-111 | a failed load shows "Archive not found"; a record without a tag ends the page at the sidebar; the results shown are the listing of the hits under the selection, with the "No matches" warning iff no card is shown, or the page raised after the cards listed so far; without an upload the page waits; with the 20 columns FAISS returns, at most 20 cards |
| `ArchiveBot.Found` | visual_archive_bot.py:75-76 | the positions kept are exactly the hits other than -1 |
| `ArchiveBot.CollectFollowsFound` | visual_archive_bot.py:75-86 | without an exception, match k and detected style k come from the record at the k-th non -1 position, in search order; missing artist is "Unknown" and missing tag "General" in the match, and the style is the raw tag |
| `ArchiveBot.CollectFaults` | visual_archive_bot.py:77-97 | the loop raises iff some non -1 position is outside the metadata list or names a record without "path"; the message is "list index out of range" or "'path'" |
| `ArchiveBot.StylesAreMatchTags` | visual_archive_bot.py:80-86 | on builder-written records (all tagged), detected_styles equals the match tags entry for entry |
| `ArchiveBot.MostFrequentExists` | visual_archive_bot.py:89 | a non-empty style list has a style of maximal count |
| `ArchiveBot.VisualArchiveBot.constructor` | visual_archive_bot.py:14-36 | the bot is ready iff the model loaded, the index file exists and index and metadata were read; then it holds that metadata |
| `ArchiveBot.VisualArchiveBot.ProcessInput` | visual_archive_bot.py:38-97 | offline error when not ready; "I need an image" without an image; a raised search or loop exception gives "I had trouble seeing that: " + message; otherwise the matches `Collect` defines and a dominant style that is "Unknown" for no styles, else a style of maximal count; with the 5 columns FAISS returns, at most 5 matches |
| `ArchiveBot.GenerateResponse` | visual_archive_bot.py:99-124 | an error is returned unchanged; no matches gives the fixed "couldn't find anything similar" reply; otherwise one of the three style phrases, then the sentence citing matches[0]'s artist and score |

## Findings

| source | as written | input that shows it | evidently intended | confidence | as-written member | corrected member |
|---|---|---|---|---|---|---|
| archive_builder.py:67-74 | the vector is appended before tagging, so an exception while tagging leaves a vector with no record; index position p and metadata[p] then describe different images, and the last positions have no record | files a.png, b.png; tagging a.png raises; b.png is tagged "Oil Painting" | a file's vector and record are stored together, so index and metadata stay aligned | medium, not executed | `ArchiveBuilder.TaggingFailureOrphansVector` | `ArchiveBuilder.IngestAlignedIsAligned` |
| archive_builder.py:78 | a record's id is the file's listing index, so after a skipped file the id no longer equals the record's position in the archive | files a.png, b.png; opening a.png raises; b.png's record sits at position 0 with id 1 | id equals the record's position in the archive | low, not executed | `ArchiveBuilder.SkippedFileShiftsIds` | `ArchiveBuilder.IngestAlignedSameRecords` |

`BuildArchive` and `Build` keep the source's behaviour. `IngestAligned` is the corrected
loop: it stores a vector only together with its record, and it numbers records by their
position.

## Left out

- CLIP loading, image decoding, embedding and zero-shot logits are a foreign model. They are the `modelLoads` flag and the per-file `FileOutcome`.
- L2 normalisation (including a zero norm) and `round(score * 100, 2)` are floating point. Vectors are opaque `seq<real>` values and scores abstract integers.
- `ArchiveBot.ScoreText` renders a score as a decimal integer, not with Python's float formatting.
- The FAISS index is out of scope: `IndexFlatIP`, `add`, `search`, `read_index` and `write_index`. A search result is the `hits` input. FAISS always returns exactly k columns (20 for the page, 5 for the bot), padded with -1. The bounds are proved against `|hits|`, and for hits of exactly that width (`SearchWidth`, `BotSearchWidth`) at most 20 cards or 5 matches.
- Writing `image_vectors.index` and `metadata.json` is file I/O. The `Written(vectors, records)` status is what would be written. An I/O error during the write propagates in the source and is not modelled.
- Reading the archive is file I/O. It becomes `Option<seq<Entry>>`: None when reading failed.
- `os.makedirs`, `os.listdir` and the progress `print`s are left out. The listing is an input, and `folderExists` says whether the folder was there.
- `ArchiveBuilder.IsImageName`: lower-cases ASCII letters only. Python's Unicode `lower()` is not modelled.
- `ArchiveBuilder.ImagePath` joins with "/" (POSIX `os.path.join` on a bare file name).
- Loading CLIP at app.py:17-18 is outside the page's try, and `Image.open` at app.py:55 is not guarded. A failure in either ends the page with an error, and neither is an input of `RenderPage`.
- Streamlit layout and widgets are UI. `st.image` on a missing file is not modelled. The multiselect choice is the `chosen` input; the widget's restriction of it to the offered tags is not modelled.
- `WebSearch.ListResults`: says nothing about `results_found` once the page has raised. The page is dead at that point.
- `random.choice` among the three phrases is the `pick` parameter.
- `ArchiveBot.GenerateResponse`: states only that the reply opens with one of the three phrases, not which one, since the choice is random.
- The `.get('matches', [])` and `.get('dominant_style', 'art')` defaults in generate_response are not modelled. process_input always returns a dictionary with either an error or both keys, so they are never used.
- run_chatbot.py (chat history and UI), chatbot_base.py (terminal loop) and download_images.py (network fetching) are not part of this model.
