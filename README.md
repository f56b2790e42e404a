# site-gen builder, modelled in Dafny

This project models the core of `site-gen`, a static blog generator, as it is
written in `src/builder.rs`.

- `Builder::new` rejects the options without a destination or a source
  directory. It then registers every template file with Handlebars under its
  name, which is the file name up to its first `.`.
- `Builder::build` parses every source document into an entry and sorts the
  entries newest first with a stable sort.
- `build_blog` does the following:
  - It computes the navigation list from the entry count taken as a `u8`.
  - It checks the destination, the URL and the URL's host.
  - It cuts the sorted entries into chunks of `entries` entries.
  - For every chunk it renders an entry page per entry, adds the entries of
    the first chunk to the feed, and records every tag of every entry in an
    ordered tag map. Then it renders the chunk's index page (`index.html`,
    `index1.html`, …).
  - Finally it renders the feed (`index.rss`) and the tag list (`tags.html`).
- `parse_entry` scans the lines of a document up to the second `---` line and
  decodes `key: value` lines, the last line for a key winning. It names the
  output file after the last path component, with `.md` replaced by `.html`.

The modules follow that structure:

- `Text`: Rust's `split`, `join`, `trim`, `replace`, `lines`, decimal
  formatting and `String` ordering, on `seq<char>`.
- `Naming`: the entry URL, the template name and the registration loop.
- `Entries`: the front-matter scan and the entry record.
- `Sorting`: the newest-first order.
- `Pagination`: the `u8` page count, the navigation links, `chunks` and the
  index file names.
- `TagIndex`: the `BTreeMap` of tags, as an association list kept strictly
  ordered by key.
- `Blog`: the page data, the writes and the `Builder` class.

`Builder` is a class whose `Build` method updates its `entries` field in
place, like the source. The loops of the source are methods with loop
invariants:

- the preamble scan;
- the template registration;
- the navigation list;
- the entry, chunk and tag loops of `build_blog`.

Each method is proved equal to a function of its inputs, and the lemmas state
these properties about those functions:

- the preamble and key/value decoding;
- that the sort is sorted, a permutation and stable, and the only such order;
- the page count and chunk shapes;
- the layout of the written files;
- the contents of the feed and of the tag map;
- every error path.

A page is modelled as a `Write`: the output file name (relative to the
destination directory), the template name and the data handed to the template.
A build's result is `Success(writes)` or the first error.

The entry count is converted with `len() as u8`, which the model keeps as
written: the count is taken modulo 256. `NavigationLostFrom256` and
`NavigationLostExample` show what follows from it: 256 entries at ten to a
page give 26 index pages but no navigation links.

A few behaviours of the code are easy to miss, and the model keeps each of them:

- A document without a preamble, or without a `date:` or `title:` line, is no
  error. The fields keep their defaults: the current time, an empty title, no
  tags.
- A date that does not parse as RFC 3339 makes `parse_date` (`src/helpers.rs`)
  print a message and use the current time.
- The navigation list is empty when the `u8` entry count fits on one page.
- The feed gets the entry's plain text, truncated only when `truncate` is set.
  The entry page gets the author's description, or else the plain text passed
  through `truncate_text` with a limit of 300.
- A URL that does not parse and a URL without a host are two different errors.
- Two source files can have the same output name (`post.md` and `post.html` both
  give `post.html`). Both entry pages are written to that file, so the later one
  in sorted order replaces the earlier one.

## Model

| member | source | states |
|---|---|---|
| `Text.Split` | src/builder.rs:300-301 | `split` always yields at least one piece, so `elements.first()` is never `None` |
| `Text.JoinSplit` | src/builder.rs:300-302 | joining the pieces of a split with the separator gives the line back |
| `Text.SplitCount` | src/builder.rs:308-312 | a split has one more piece than the string has separators |
| `Text.SplitHead` | src/builder.rs:77 | the first piece is the text before the first separator, and the other pieces join to the text after it |
| `Text.SplitJoin` | src/builder.rs:308-312 | splitting a join of separator-free pieces gives the pieces back |
| `Text.TrimSpec` | src/builder.rs:311 | `trim` removes only whitespace, only at the ends, and leaves none at either end |
| `Text.TrimIdentity` | src/builder.rs:311 | a string with no whitespace at its ends is its own trim |
| `Text.ReplaceAbsent` | src/builder.rs:333 | `replace` of a pattern that does not occur changes nothing |
| `Text.LinesLackNewline` | src/builder.rs:292 | no line yielded by `lines()` contains a line feed |
| `Text.LinesOfCrlfTerminated` | src/builder.rs:292-293 | lines free of line feeds, each ended by `\r\n`, read back as exactly those lines, so a `---\r\n` line is a delimiter |
| `Text.LinesOfTerminated` | src/builder.rs:292 | lines free of line feeds and not ending in `\r`, each ended by a line feed, read back as exactly those lines |
| `Text.NatToString` | src/builder.rs:240 | the decimal text of a count is non-empty, all digits, one digit exactly below ten, and starts with `0` only for zero |
| `Text.NatToStringValue` | src/builder.rs:240 | the decimal digits printed for a count denote that count |
| `Text.NatToStringInjective` | src/builder.rs:240 | different counts print differently |
| `Text.LessIrreflexive` | src/builder.rs:138 | the key order of the tag map is irreflexive |
| `Text.LessTotal` | src/builder.rs:138 | any two different keys are ordered one way round |
| `Text.LessAsymmetric` | src/builder.rs:138 | the key order is asymmetric |
| `Text.LessTransitive` | src/builder.rs:138 | the key order is transitive |
| `Naming.ReplaceLeavesNoMd` | src/builder.rs:333 | after replacing `.md` by `.html` no `.md` is left, even one formed across a replacement |
| `Naming.ReplaceBeforeMd` | src/builder.rs:333 | the first `.md` after a stretch without one becomes `.html`, the stretch is kept, and the replacement goes on after it |
| `Naming.ReplaceJoin` | src/builder.rs:333 | pieces without `.md`, joined by `.md`, come out joined by `.html`: every `.md` is replaced and nothing else changes |
| `Naming.EntryUrl` | src/builder.rs:331-337 | the output name of an entry: its last path component with every `.md` replaced by `.html`, or the whole path when there is no component; `EntryUrlOfMarkdown`, `EntryUrlOfPieces`, `EntryUrlWithoutMd` and `EntryUrlHasNoMd` say what that gives |
| `Naming.EntryUrlOfMarkdown` | src/builder.rs:331-337 | `dir/name.md`, where `name` holds no other `.md`, is written to `name.html` |
| `Naming.EntryUrlOfPieces` | src/builder.rs:331-337 | a last component made of `.md`-free pieces joined by `.md` is written to those pieces joined by `.html` |
| `Naming.EntryUrlWithoutMd` | src/builder.rs:331-337 | a last component without `.md` is the output name unchanged |
| `Naming.EntryUrlHasNoMd` | src/builder.rs:331-337 | an output name taken from a path component never contains `.md` |
| `Naming.TemplateName` | src/builder.rs:75-81 | the name a template is registered under: its last path component up to the first `.`, or the whole path; `TemplateNameIsStem` states it |
| `Naming.TemplateNameIsStem` | src/builder.rs:75-81 | the template name is the last component up to its first `.` and holds no `.` |
| `Naming.RegisterStep` | src/builder.rs:82 | registering one more template keeps the registry exactly what registering the prefix in order leaves |
| `Naming.RegistryOfRegisters` | src/builder.rs:73-84 | registering one template at a time registers every name and nothing else, each name mapping to the last template carrying it |
| `Naming.RegistersUnique` | src/builder.rs:73-84 | that description leaves no freedom: one list of templates has one registry |
| `Naming.RegisterTemplates` | src/builder.rs:73-84 | the registration loop leaves every template name registered, no other name, and each name bound to the last file carrying it |
| `Entries.Preamble` | src/builder.rs:291-298 | the lines the scan decodes: those before the second `---` line, or all of them; `PreambleLengthUnique`, `PreambleStopsAtSecondDelimiter`, `PreambleWithoutSecondDelimiter` and `PreambleOfFrontMatter` pin it down |
| `Entries.PreambleLengthUnique` | src/builder.rs:291-298 | the scan stops at the only line that is the second delimiter, or at the end when there is none |
| `Entries.PreambleStopsAtSecondDelimiter` | src/builder.rs:293-297 | after one delimiter, the next delimiter ends the scan and nothing after it is decoded |
| `Entries.PreambleWithoutSecondDelimiter` | src/builder.rs:291-328 | without a second delimiter every line is decoded |
| `Entries.PreambleOfFrontMatter` | src/builder.rs:291-298 | for `head --- front --- body`, `head`, the first delimiter and `front` are decoded and `body` is not |
| `Entries.Key` | src/builder.rs:300-301 | the first space-separated token of a line, which `KeyValueOfLine` shows is the line up to its first space |
| `Entries.Value` | src/builder.rs:302 | the other tokens joined with single spaces, which `KeyValueOfLine` shows is the rest of the line after its first space, verbatim |
| `Entries.KeyValueOfLine` | src/builder.rs:300-302 | the key is the line up to its first space and the value the rest of the line after it, verbatim |
| `Entries.LastValueAppend` | src/builder.rs:304-327 | a later line for a key hides every earlier one; without one the earlier lines decide |
| `Entries.LastValueAbsent` | src/builder.rs:283-288 | without a line for a key the field keeps its default |
| `Entries.LaterKeyWins` | src/builder.rs:304-327 | the last line for a key gives the field its value |
| `Entries.DecodeStep` | src/builder.rs:304-327 | decoding one more line sets exactly that line's field and leaves the others |
| `Entries.ParseDate` | src/helpers.rs:6-14 | `parse_date`: the instant the RFC 3339 parser gives, or the clock reading when it gives none |
| `Entries.Tags` | src/builder.rs:308-312 | a `tags:` value split at every comma, each piece trimmed; `TagsSpec`, `TagsOfPieces` and `TagsOfJoin` say what that gives |
| `Entries.TagsSpec` | src/builder.rs:308-313 | there is one tag more than there are commas, each tag is comma-free and trimmed, and an empty value gives one empty tag |
| `Entries.TagsOfPieces` | src/builder.rs:308-313 | comma-free pieces joined by commas decode to the pieces trimmed, in their order, duplicates kept |
| `Entries.TagsOfJoin` | src/builder.rs:308-313 | a comma-joined list of trimmed, comma-free tags decodes back to that list |
| `Entries.DecodeLines` | src/builder.rs:283-328 | each field is the value of the last line for its key or its default (the clock reading, no tags, an empty title, no images, no description); `LastValueAbsent`, `LaterKeyWins` and `DecodeStep` state this |
| `Entries.EntryOf` | src/builder.rs:277-363 | the entry of a source file: the decoded preamble, the output name, the rendered HTML and its plain text; `ParseEntry` is proved equal to it |
| `Entries.ScanPreamble` | src/builder.rs:283-328 | the scan loop leaves each field at the value of the last line for its key before the second delimiter, or at its default |
| `Entries.ParseEntry` | src/builder.rs:277-363 | the entry is the decoded preamble, the output name, the rendered HTML and its plain text |
| `Sorting.CompareNewestFirst` | src/builder.rs:100-104 | the comparator of `build`, which `CompareMeansNewerFirst` shows orders the newer entry first and ties equal instants |
| `Sorting.SortNewestFirst` | src/builder.rs:100-104 | the order `sort_by` leaves; `SortIsNewestFirst`, `SortIsPermutation`, `SortIsStable` and `StableSortUnique` show it is the only stable newest-first rearrangement |
| `Sorting.CompareMeansNewerFirst` | src/builder.rs:100-104 | the comparator returns `Less` exactly when the first entry is newer, and `Equal` exactly on equal instants |
| `Sorting.SortIsNewestFirst` | src/builder.rs:100-104 | after the sort, each entry is at least as new as the next |
| `Sorting.SortIsPermutation` | src/builder.rs:100-104 | the sort neither adds, drops nor duplicates an entry |
| `Sorting.SortTwo` | src/builder.rs:100-104 | of two entries with different instants, the newer comes first |
| `Sorting.SortIsStable` | src/builder.rs:100-104 | entries with equal instants keep their load order |
| `Sorting.StableSortUnique` | src/builder.rs:100-104 | any newest-first order that keeps each group of equal instants in load order is the sort's result |
| `Pagination.PageCount` | src/builder.rs:115-120 | the number of navigation links: none when the `u8` entry count fits on one page, otherwise the ceiling of count over page size; `CeilDivBySteps` and `ComputePagination` connect it to the loop |
| `Pagination.CeilDivBySteps` | src/builder.rs:117-120 | the quotient plus one for a remainder is the ceiling of the division |
| `Pagination.PagesFitU8` | src/builder.rs:117-120 | the `u8` page count plus one cannot overflow |
| `Pagination.PageLinks` | src/builder.rs:121-132 | the link loop makes one link per page, `home` to `index.html` first, then `page i` to `index{i}.html` |
| `Pagination.ComputePagination` | src/builder.rs:113-133 | no links when the `u8` entry count fits on one page, otherwise the ceiling of count over page size many, in page order |
| `Pagination.PageLink` | src/builder.rs:122-131 | navigation link `i`: `home` to `index.html` for page 0, `page i` to `index{i}.html` otherwise; `PageLinkPointsAtIndexFile` ties it to the index file |
| `Pagination.IndexFileName` | src/builder.rs:237-241 | the file chunk `i` is written to; `FirstIndexFileNames` and `IndexFileNamesDistinct` describe it |
| `Pagination.PageLinkPointsAtIndexFile` | src/builder.rs:237-241 | navigation link `i` points at the file chunk `i` is written to |
| `Pagination.FirstIndexFileNames` | src/builder.rs:237-241 | chunks 0, 1 and 2 are written to `index.html`, `index1.html` and `index2.html` |
| `Pagination.IndexFileNamesDistinct` | src/builder.rs:237-241 | no two chunks are written to the same index file |
| `Pagination.Chunks` | src/builder.rs:155 | `chunks(p)`: consecutive slices of `p` entries, the last possibly shorter; `ChunksFlatten`, `ChunksShape` and `ChunkAt` characterise it |
| `Pagination.ChunksFlatten` | src/builder.rs:155 | concatenating the chunks gives the entries back |
| `Pagination.ChunksShape` | src/builder.rs:155 | there are `ceil(n / p)` chunks, each of size `p` except the last, which has between one and `p` |
| `Pagination.ChunkAt` | src/builder.rs:155 | chunk `i` is the slice from `i * p` to `(i + 1) * p` or the end |
| `Pagination.OnePageNoNavigation` | src/builder.rs:115-120 | with at most one page of entries there is no navigation and at most one chunk |
| `Pagination.NavigationMatchesChunks` | src/builder.rs:115-120 | below 256 entries and above one page there is one link per chunk |
| `Pagination.NavigationLostFrom256` | src/builder.rs:115-120 | from 256 entries on, whenever the count modulo 256 fits on one page there is no navigation although there are at least two chunks |
| `Pagination.NavigationLostExample` | src/builder.rs:115-120 | 256 entries at ten to a page: 26 chunks and no navigation |
| `TagIndex.Append` | src/builder.rs:202-207 | the `get_mut`/`insert` step on the ordered map; `AppendKeys`, `AppendOrdered` and `AppendLookup` state what it does |
| `TagIndex.TagMapOf` | src/builder.rs:196-208 | the map after recording every reference in order into an empty one; `TagMapContents` and `RefsTaggedCount` say what it holds |
| `TagIndex.LookupAbsent` | src/builder.rs:202-206 | a key that is not in the map has no references |
| `TagIndex.AppendKeys` | src/builder.rs:202-207 | after recording a reference the keys are the old keys and its tag |
| `TagIndex.AppendOrdered` | src/builder.rs:202-207 | recording a reference keeps the keys strictly ascending |
| `TagIndex.AppendLookup` | src/builder.rs:202-207 | recording a reference appends it under its tag and leaves every other key's list as it was |
| `TagIndex.TagMapContents` | src/builder.rs:196-208 | the fold gives ascending keys, exactly the tags seen, and under each the references carrying it in order |
| `TagIndex.RefsTaggedCount` | src/builder.rs:196-208 | each occurrence of a tag puts exactly one reference under it, and only references with that tag are there |
| `TagIndex.TagMapExample` | src/builder.rs:196-208 | references tagged `a`, `b`, `a`, `c` give the map `a: [first, third]`, `b: [second]`, `c: [fourth]` |
| `Blog.RecordTags` | src/builder.rs:196-208 | the tag loop records one reference per tag of the entry, in tag order |
| `Blog.EntryRefsTags` | src/builder.rs:196-208 | the tags of the recorded references are exactly the tags of the entries |
| `Blog.EntryPageOf` | src/builder.rs:163-173 | the data of an entry page: the entry's fields, and its description or else its plain text passed through `truncate_text` with a limit of 300 |
| `Blog.IndexItemOf` | src/builder.rs:214-224 | the data of one entry on an index page |
| `Blog.FeedItemOf` | src/builder.rs:181-192 | the data of one feed item: the text truncated only when `truncate` is set, and `anonymous` when there is no author |
| `Blog.SitePages` | src/builder.rs:155-272 | the writes of a build past its checks; `SitePagesLayout`, `SitePagesCount`, `SitePagesEntries`, `SitePagesByTemplate`, `FeedIsFirstChunk` and `TagListContents` describe them |
| `Blog.MissingTemplate` | src/builder.rs:174-270 | the first template rendered that is not registered: `entry` and `index` only when there are entries, then `atom`, then `tag-list`; `BlogErrors` uses it, and the render methods are proved to report it |
| `Blog.SiteResult` | src/builder.rs:109-275 | what `build_blog` returns: the destination, URL and host errors in that order, then a missing template or the pages; `BlogErrors` and `EmptyBlog` state it |
| `Blog.BlogErrors` | src/builder.rs:140-153 | no destination, no URL, an unparsable URL and a URL without host each give their error; a missing template is named; the build succeeds exactly when all checks pass |
| `Blog.EmptyBlog` | src/builder.rs:250-272 | without entries only the feed and the tag list are written, both empty |
| `Blog.SitePagesByTemplate` | src/builder.rs:250-272 | the feed and the tag list use neither the entry nor the index template |
| `Blog.SitePagesCount` | src/builder.rs:155-272 | a build writes one file per entry, one per chunk and two more |
| `Blog.SitePagesEntries` | src/builder.rs:157-177 | the entry pages are written in sorted order, one per entry |
| `Blog.SitePagesLayout` | src/builder.rs:155-272 | entry pages in sorted order, index page `k` for chunk `k`, then the feed to `index.rss` and the tag list to `tags.html` |
| `Blog.IndexPagesDistinct` | src/builder.rs:237-246 | no two index pages share a file, and index page `k` lists chunk `k` |
| `Blog.FeedIsFirstChunk` | src/builder.rs:179-193 | the feed lists the first chunk only: the newest `entries` entries, or all when there are fewer |
| `Blog.TagListContents` | src/builder.rs:267-272 | the tag list holds ascending keys, exactly the entries' tags, with one reference per occurrence in sorted entry order |
| `Blog.ChunksOfFive` | src/builder.rs:155 | five entries two to a page make chunks of two, two and one |
| `Blog.FiveEntriesTwoPerPage` | src/builder.rs:155-265 | five entries two to a page make ten files: five entry pages, `index.html`, `index1.html` and `index2.html` with two, two and one entries, and a feed of the newest two |
| `Blog.Builder.constructor` | src/builder.rs:86-91 | a builder holds the options, the files and the registry, with no entries yet |
| `Blog.Builder.New` | src/builder.rs:55-92 | no destination and no source directory each fail with their missing value; otherwise a fresh builder with every template registered |
| `Blog.EntriesOf` | src/builder.rs:95-98 | the entries of the source files in file order, file `k` parsed at clock reading `k`; `ParseFiles` is proved equal to it |
| `Blog.UndatedAtClock` | src/builder.rs:283-288 | an entry without a `date:` line carries the clock reading taken while it was parsed |
| `Blog.UndatedNewestParseFirst` | src/builder.rs:94-104 | two undated files parsed while the clock advances come out of the sort in reverse file order |
| `Blog.ParseFiles` | src/builder.rs:95-98 | the parse loop gives every source file's entry, each parsed at its own clock reading, in file order |
| `Blog.Builder.Build` | src/builder.rs:94-107 | the entries become the old entries followed by the parsed files, each at its own clock reading, sorted newest first; options, files and registry are unchanged; the result is that of `build_blog` on the new entries |
| `Blog.Builder.BuildBlog` | src/builder.rs:109-275 | the result is that of `SiteResult` on the builder's entries: the destination, URL and host checks in that order, then the site's pages or the first missing template |
| `Blog.Builder.RenderPages` | src/builder.rs:155-272 | the chunk loop, the feed and the tag list give the site's writes, or the first template missing |
| `Blog.Builder.RenderChunks` | src/builder.rs:155-248 | after the chunk loop the writes, the feed and the tag map are those of all chunks, or a template is missing |
| `Blog.Builder.RenderChunk` | src/builder.rs:155-248 | one chunk adds its entry pages then its index page, its feed items when it is the first chunk, and its tags |
| `Blog.Builder.RenderEntries` | src/builder.rs:157-209 | one entry page per entry in order, the feed items when first, and the tags of each entry recorded after those before |

## Left out

- File I/O is not modelled. Reading the directories (`get_entries`), reading each source
  file and creating the destination directory are left out. Every `fs::write` becomes a
  `Write` value in the result, and the destination path is not joined on. The source
  files and template files are parameters.
- Handlebars rendering is not modelled. A render is the template name and the data handed
  to it. The only rendering error kept is a template that is not registered, reported
  as `TemplateNotFound`. A template file that fails to register is not modelled.
- A failure part-way through `build_blog` has already written the earlier pages. The
  model returns only the error, not those partial writes.
- The markdown renderer, `strip_tags`, `truncate_text`, `parse_from_rfc3339` and
  `Url::parse(...).host()` are opaque function values of the caller. Properties of the
  model hold whatever they compute.
- `Local::now()` is read afresh by every `parse_entry` call and once more by
  `build_blog`. The model takes one reading per parsed file (`clock[k]`) and one for
  the build (`now`), so undated entries are ordered by the time they were parsed
  (`UndatedNewestParseFirst`). Within one file, the default date and the fallback of
  `parse_date` share that file's reading.
- Dates are kept as instants. Their text formats (`%A, %b %e, %Y`, `%+`, `%F`, `%Y`)
  are not modelled.
- `println!` output is not modelled.
- `src/main.rs` and the definition of `Opt` are not part of this model. The field types
  of `Options` are inferred from their use.
- A path that is not valid UTF-8 (`to_str()` returning `None`) is not modelled, and
  neither is the `BadFilename` error that follows from it. A template path is always
  registered, and a source path always has its text.
- `Blog.Builder.Build`: the sort is stated as the function `SortNewestFirst`, an
  insertion sort, and not done in place. `StableSortUnique` shows that any stable
  newest-first sort gives the same order.
- `Blog.Builder.Build`: requires `entries > 0`. `chunks(0)` panics in the source.
- `Text.Lines`: models `str::lines` as splitting at line feeds. A trailing empty line is
  dropped, and one `\r` is stripped before a line feed.
- `Text.Less`: compares strings by code point. This is the order of their UTF-8 bytes
  that `BTreeMap` uses.
