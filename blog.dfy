/**
 * `build_blog` and the `Builder` that drives it. Instead of rendering
 * templates and writing files, the build returns the list of writes it would
 * make, in order: which file, through which registered template, with which
 * data. Each entry page is followed, per chunk, by the chunk's index page;
 * after the last chunk come the feed and the tag list.
 */
module Blog {
  import opened Wrappers
  import opened Text
  import opened Naming
  import opened Externals
  import opened Entries
  import opened Sorting
  import opened Pagination
  import opened TagIndex

  /** The options the builder reads. */
  datatype Options = Options(
    src: Option<string>,
    dest: Option<string>,
    templateDir: string,
    /** Entries per index page. */
    entries: U8,
    title: string,
    description: string,
    url: Option<string>,
    truncate: Option<nat>,
    author: Option<string>)

  /** Why a build stops. */
  datatype BuildError =
    | MissingValue(name: string)
    /** `url::Url::parse` refused the site URL. */
    | UrlParse
    /** The site URL has no host. */
    | BadUrl
    /** `render` was asked for a template that was never registered. */
    | TemplateNotFound(template: string)

  const ENTRY_TEMPLATE: string := "entry"
  const INDEX_TEMPLATE: string := "index"
  const ATOM_TEMPLATE: string := "atom"
  const TAG_LIST_TEMPLATE: string := "tag-list"
  const FEED_FILE: string := "index.rss"
  const TAGS_FILE: string := "tags.html"
  const DEFAULT_AUTHOR: string := "anonymous"
  /** The length an entry page's fallback description is truncated to. */
  const DESCRIPTION_LENGTH: nat := 300

  /** What every page of one build shares. */
  datatype Site = Site(opts: Options, now: Timestamp, ext: Externals, domain: string, pagination: seq<NavLink>)

  /** The data of an entry page (`post_data`). */
  datatype EntryPage = EntryPage(
    title: string, contents: string, tags: seq<string>, url: string, modified: Timestamp,
    heroImage: Option<string>, shareImage: Option<string>, description: string, siteUrl: Option<string>)

  /** One entry as an index page lists it. */
  datatype IndexItem = IndexItem(
    title: string, contents: string, tags: seq<string>, url: string, modified: Timestamp,
    heroImage: Option<string>, siteUrl: Option<string>)

  /** The data of an index page (`page_data`); `now` stands for its year and publication date. */
  datatype IndexPage = IndexPage(
    title: string, contents: seq<IndexItem>, pagination: seq<NavLink>, now: Timestamp,
    description: string, siteUrl: Option<string>)

  /** One entry as the feed lists it; `published` stands for its time stamp and tag date. */
  datatype FeedItem = FeedItem(
    title: string, description: string, modified: Timestamp, url: string, siteUrl: Option<string>,
    contents: string, published: Timestamp, author: string, domain: string)

  /** The data of the feed. */
  datatype FeedPage = FeedPage(
    title: string, entries: seq<FeedItem>, now: Timestamp, siteUrl: Option<string>,
    description: string, domain: string)

  datatype PageData =
    | EntryData(entry: EntryPage)
    | IndexData(index: IndexPage)
    | FeedData(feed: FeedPage)
    | TagsData(tags: TagMap)

  /** One rendered file: its name under the destination directory, the template and the data. */
  datatype Write = Write(file: string, template: string, data: PageData)

  // ---------------------------------------------------------------------------
  // The pieces of one build

  /** The navigation list `build_blog` computes for `len` entries. */
  function PaginationOf(len: nat, perPage: U8): seq<NavLink>
    requires perPage > 0
  {
    seq(PageCount(len, perPage), i requires 0 <= i => PageLink(i))
  }

  /** The text the feed shows for an entry: its plain text, truncated when the options ask. */
  function EntryText(e: FileEntry, site: Site): string {
    match site.opts.truncate
    case Some(n) => site.ext.truncateText(e.rawText, n)
    case None => e.rawText
  }

  function EntryPageOf(e: FileEntry, site: Site): EntryPage {
    EntryPage(e.title, e.contents, e.tags, e.url, e.modified, e.heroImage, e.shareImage,
              e.description.GetOr(site.ext.truncateText(e.rawText, DESCRIPTION_LENGTH)), site.opts.url)
  }

  function EntryWrite(e: FileEntry, site: Site): Write {
    Write(e.url, ENTRY_TEMPLATE, EntryData(EntryPageOf(e, site)))
  }

  /** The entry pages of `es`, in order. */
  function EntryWrites(es: seq<FileEntry>, site: Site): seq<Write> {
    seq(|es|, i requires 0 <= i < |es| => EntryWrite(es[i], site))
  }

  function IndexItemOf(e: FileEntry, site: Site): IndexItem {
    IndexItem(e.title, e.contents, e.tags, e.url, e.modified, e.heroImage, site.opts.url)
  }

  /** The per-chunk `map(...).collect()`. */
  function IndexItems(chunk: seq<FileEntry>, site: Site): seq<IndexItem> {
    seq(|chunk|, i requires 0 <= i < |chunk| => IndexItemOf(chunk[i], site))
  }

  /** The index page of chunk `k`. */
  function IndexWrite(k: nat, chunk: seq<FileEntry>, site: Site): Write {
    Write(IndexFileName(k), INDEX_TEMPLATE,
          IndexData(IndexPage(site.opts.title, IndexItems(chunk, site), site.pagination, site.now,
                              site.opts.description, site.opts.url)))
  }

  function FeedItemOf(e: FileEntry, site: Site): FeedItem {
    FeedItem(e.title, EntryText(e, site), e.modified, e.url, site.opts.url, e.contents, site.now,
             site.opts.author.GetOr(DEFAULT_AUTHOR), site.domain)
  }

  function FeedItemsOf(es: seq<FileEntry>, site: Site): seq<FeedItem> {
    seq(|es|, i requires 0 <= i < |es| => FeedItemOf(es[i], site))
  }

  /** The feed lists the first chunk only. */
  function FeedItems(chunks: seq<seq<FileEntry>>, site: Site): seq<FeedItem> {
    if chunks == [] then [] else FeedItemsOf(chunks[0], site)
  }

  function FeedWrite(items: seq<FeedItem>, site: Site): Write {
    Write(FEED_FILE, ATOM_TEMPLATE,
          FeedData(FeedPage(site.opts.title, items, site.now, site.opts.url, site.opts.description, site.domain)))
  }

  function TagsWrite(m: TagMap): Write {
    Write(TAGS_FILE, TAG_LIST_TEMPLATE, TagsData(m))
  }

  /** The references one entry records, one per tag occurrence. */
  function RefsOf(e: FileEntry): seq<TagRef> {
    seq(|e.tags|, i requires 0 <= i < |e.tags| => TagRef(e.url, e.title, e.tags[i]))
  }

  /** The references of all entries, in entry order. */
  function EntryRefs(es: seq<FileEntry>): seq<TagRef>
    decreases |es|
  {
    if es == [] then [] else EntryRefs(es[..|es| - 1]) + RefsOf(es[|es| - 1])
  }

  /** The writes for the chunks, chunk `k` being its entry pages and then its index page. */
  function PageWrites(chunks: seq<seq<FileEntry>>, site: Site): seq<Write>
    decreases |chunks|
  {
    if chunks == [] then []
    else PageWrites(chunks[..|chunks| - 1], site)
         + EntryWrites(chunks[|chunks| - 1], site)
         + [IndexWrite(|chunks| - 1, chunks[|chunks| - 1], site)]
  }

  /** Everything a build that gets past its checks writes, in order. */
  function SitePages(entries: seq<FileEntry>, site: Site): seq<Write>
    requires site.opts.entries > 0
  {
    var chunks := Chunks(entries, site.opts.entries);
    PageWrites(chunks, site)
    + [FeedWrite(FeedItems(chunks, site), site), TagsWrite(TagMapOf(EntryRefs(entries)))]
  }

  /** The first template the build renders that is not registered, if any. */
  function MissingTemplate(hasEntries: bool, registered: set<string>): Option<string> {
    if hasEntries && ENTRY_TEMPLATE !in registered then Some(ENTRY_TEMPLATE)
    else if hasEntries && INDEX_TEMPLATE !in registered then Some(INDEX_TEMPLATE)
    else if ATOM_TEMPLATE !in registered then Some(ATOM_TEMPLATE)
    else if TAG_LIST_TEMPLATE !in registered then Some(TAG_LIST_TEMPLATE)
    else None
  }

  /** What a build that got past the destination, URL and host checks yields. */
  function Rendered(entries: seq<FileEntry>, site: Site, registered: set<string>): Result<seq<Write>, BuildError>
    requires site.opts.entries > 0
  {
    match MissingTemplate(entries != [], registered)
    case Some(name) => Failure(TemplateNotFound(name))
    case None => Success(SitePages(entries, site))
  }

  /** What `build_blog` does with the (sorted) entries, the options, the registered templates and the clock. */
  function SiteResult(entries: seq<FileEntry>, opts: Options, registered: set<string>, now: Timestamp, ext: Externals)
    : Result<seq<Write>, BuildError>
    requires opts.entries > 0
  {
    if opts.dest.None? then Failure(MissingValue("dest"))
    else if opts.url.None? then Failure(MissingValue("url"))
    else match ext.hostOf(opts.url.value)
      case Unparseable => Failure(UrlParse)
      case NoHost => Failure(BadUrl)
      case Host(domain) =>
        Rendered(entries, Site(opts, now, ext, domain, PaginationOf(|entries|, opts.entries)), registered)
  }

  /**
   * The entries `build` parses from the source files, in file order; `clock[i]`
   * is what `Local::now()` reads while file `i` is parsed.
   */
  function EntriesOf(files: seq<SourceFile>, clock: seq<Timestamp>, ext: Externals): seq<FileEntry>
    requires |clock| == |files|
    decreases |files|
  {
    if files == [] then []
    else
      var n := |files| - 1;
      EntriesOf(files[..n], clock[..n], ext) + [EntryOf(files[n], clock[n], ext)]
  }

  /**
   * Two files without a `date:` line, parsed one after the other while the
   * clock advances, come out of the sort in reverse file order: the later
   * parse reads the later instant.
   */
  lemma UndatedNewestParseFirst(a: SourceFile, b: SourceFile, t1: Timestamp, t2: Timestamp, ext: Externals)
    requires LastValue(Preamble(Lines(a.text)), DATE_KEY) == None
    requires LastValue(Preamble(Lines(b.text)), DATE_KEY) == None
    requires t1 < t2
    ensures SortNewestFirst(EntriesOf([a, b], [t1, t2], ext)) == [EntryOf(b, t2, ext), EntryOf(a, t1, ext)]
  {
    var ea, eb := EntryOf(a, t1, ext), EntryOf(b, t2, ext);
    assert [a, b][..1] == [a] && [t1, t2][..1] == [t1];
    assert EntriesOf([a], [t1], ext) == [ea];
    assert EntriesOf([a, b], [t1, t2], ext) == [ea, eb];
    UndatedAtClock(a, t1, ext);
    UndatedAtClock(b, t2, ext);
    SortTwo(ea, eb);
  }

  /** An entry without a `date:` line carries the clock reading taken while it was parsed. */
  lemma UndatedAtClock(f: SourceFile, t: Timestamp, ext: Externals)
    requires LastValue(Preamble(Lines(f.text)), DATE_KEY) == None
    ensures EntryOf(f, t, ext).modified == t
  {
  }

  /** The loop of `build` that parses every source file, in file order. */
  method ParseFiles(files: seq<SourceFile>, clock: seq<Timestamp>, ext: Externals) returns (parsed: seq<FileEntry>)
    requires |clock| == |files|
    ensures parsed == EntriesOf(files, clock, ext)
  {
    parsed := [];
    var k := 0;
    while k < |files|
      invariant 0 <= k <= |files|
      invariant parsed == EntriesOf(files[..k], clock[..k], ext)
    {
      var entry := ParseEntry(files[k], clock[k], ext);
      EntriesOfSnoc(files, clock, k, ext);
      parsed := parsed + [entry];
      k := k + 1;
    }
    assert files[..k] == files && clock[..k] == clock;
  }

  // ---------------------------------------------------------------------------
  // Steps the loops of `build` and `build_blog` take

  lemma EntriesOfSnoc(files: seq<SourceFile>, clock: seq<Timestamp>, k: nat, ext: Externals)
    requires |clock| == |files| && k < |files|
    ensures EntriesOf(files[..k + 1], clock[..k + 1], ext)
         == EntriesOf(files[..k], clock[..k], ext) + [EntryOf(files[k], clock[k], ext)]
  {
    assert files[..k + 1][..k] == files[..k] && clock[..k + 1][..k] == clock[..k];
  }

  lemma EntryRefsSnoc(es: seq<FileEntry>, e: FileEntry)
    ensures EntryRefs(es + [e]) == EntryRefs(es) + RefsOf(e)
  {
    assert (es + [e])[..|es|] == es;
  }

  lemma TagMapSnoc(refs: seq<TagRef>, r: TagRef)
    ensures TagMapOf(refs + [r]) == Append(TagMapOf(refs), r.tag, r)
  {
    assert (refs + [r])[..|refs|] == refs;
  }

  lemma RecordTag(before: seq<TagRef>, e: FileEntry, t: nat)
    requires t < |e.tags|
    ensures TagMapOf(before + RefsOf(e)[..t + 1])
         == Append(TagMapOf(before + RefsOf(e)[..t]), e.tags[t], TagRef(e.url, e.title, e.tags[t]))
  {
    var prefix := before + RefsOf(e)[..t];
    assert before + RefsOf(e)[..t + 1] == prefix + [RefsOf(e)[t]];
    TagMapSnoc(prefix, RefsOf(e)[t]);
  }

  lemma NextEntry(done: seq<FileEntry>, es: seq<FileEntry>, j: nat)
    requires j < |es|
    ensures EntryRefs(done + es[..j + 1]) == EntryRefs(done + es[..j]) + RefsOf(es[j])
  {
    assert done + es[..j + 1] == (done + es[..j]) + [es[j]];
    EntryRefsSnoc(done + es[..j], es[j]);
  }

  /** Past the destination, URL and host checks, what is left of `SiteResult` is the template check. */
  lemma BlogPastChecks(entries: seq<FileEntry>, opts: Options, registered: set<string>, now: Timestamp, ext: Externals,
                       domain: string)
    requires opts.entries > 0 && opts.dest.Some? && opts.url.Some? && ext.hostOf(opts.url.value) == Host(domain)
    ensures SiteResult(entries, opts, registered, now, ext)
         == Rendered(entries, Site(opts, now, ext, domain, PaginationOf(|entries|, opts.entries)), registered)
  {
  }

  /** There are chunks exactly when there are entries, and none of them is empty. */
  lemma ChunksNonEmpty(entries: seq<FileEntry>, p: nat)
    requires p > 0
    ensures Chunks(entries, p) == [] <==> entries == []
    ensures forall k :: 0 <= k < |Chunks(entries, p)| ==> Chunks(entries, p)[k] != []
  {
    ChunksShape(entries, p);
  }

  /** Once every chunk is rendered, the feed and the tag list complete the pages of the site. */
  lemma SitePagesOfState(entries: seq<FileEntry>, site: Site, writes: seq<Write>, feed: seq<FeedItem>, tagMap: TagMap)
    requires site.opts.entries > 0
    requires var chunks := Chunks(entries, site.opts.entries);
      ChunkState(site, chunks, |chunks|, writes, feed, tagMap)
    ensures writes + [FeedWrite(feed, site)] + [TagsWrite(tagMap)] == SitePages(entries, site)
  {
    var chunks := Chunks(entries, site.opts.entries);
    assert chunks[..|chunks|] == chunks;
    ChunksFlatten(entries, site.opts.entries);
    assert writes == PageWrites(chunks, site);
    assert feed == FeedItems(chunks, site);
    assert tagMap == TagMapOf(EntryRefs(entries));
  }

  lemma FlattenSnoc(chunks: seq<seq<FileEntry>>, k: nat)
    requires k < |chunks|
    ensures Flatten(chunks[..k + 1]) == Flatten(chunks[..k]) + chunks[k]
  {
    assert chunks[..k + 1][..k] == chunks[..k];
  }

  lemma PageWritesSnoc(chunks: seq<seq<FileEntry>>, k: nat, site: Site)
    requires k < |chunks|
    ensures PageWrites(chunks[..k + 1], site)
         == PageWrites(chunks[..k], site) + EntryWrites(chunks[k], site) + [IndexWrite(k, chunks[k], site)]
  {
    assert chunks[..k + 1][..k] == chunks[..k];
  }

  lemma EntryWritesSnoc(es: seq<FileEntry>, j: nat, site: Site)
    requires j < |es|
    ensures EntryWrites(es[..j + 1], site) == EntryWrites(es[..j], site) + [EntryWrite(es[j], site)]
  {
  }

  /** The same step with the pages written before the chunk in front. */
  lemma WritesSnoc(before: seq<Write>, es: seq<FileEntry>, j: nat, site: Site)
    requires j < |es|
    ensures before + EntryWrites(es[..j + 1], site) == (before + EntryWrites(es[..j], site)) + [EntryWrite(es[j], site)]
  {
    EntryWritesSnoc(es, j, site);
  }

  /** The same step with the items listed before in front. */
  lemma FeedSnoc(before: seq<FeedItem>, es: seq<FileEntry>, j: nat, site: Site)
    requires j < |es|
    ensures before + FeedItemsOf(es[..j + 1], site) == (before + FeedItemsOf(es[..j], site)) + [FeedItemOf(es[j], site)]
  {
    FeedItemsSnoc(es, j, site);
  }

  lemma FeedItemsSnoc(es: seq<FileEntry>, j: nat, site: Site)
    requires j < |es|
    ensures FeedItemsOf(es[..j + 1], site) == FeedItemsOf(es[..j], site) + [FeedItemOf(es[j], site)]
  {
  }

  // ---------------------------------------------------------------------------
  // What the writes are

  /** The writes using `template`, in order. */
  function WithTemplate(ws: seq<Write>, template: string): seq<Write>
    decreases |ws|
  {
    if ws == [] then []
    else WithTemplate(ws[..|ws| - 1], template) + (if ws[|ws| - 1].template == template then [ws[|ws| - 1]] else [])
  }

  lemma {:induction false} WithTemplateAppend(a: seq<Write>, b: seq<Write>, template: string)
    ensures WithTemplate(a + b, template) == WithTemplate(a, template) + WithTemplate(b, template)
    decreases |b|
  {
    if b == [] {
      assert a + b == a;
    } else {
      var b1 := b[..|b| - 1];
      assert (a + b)[..|a + b| - 1] == a + b1;
      WithTemplateAppend(a, b1, template);
    }
  }

  lemma {:induction false} WithTemplateAll(ws: seq<Write>, template: string)
    requires forall i :: 0 <= i < |ws| ==> ws[i].template == template
    ensures WithTemplate(ws, template) == ws
    decreases |ws|
  {
    if ws != [] {
      WithTemplateAll(ws[..|ws| - 1], template);
    }
  }

  lemma {:induction false} WithTemplateNone(ws: seq<Write>, template: string)
    requires forall i :: 0 <= i < |ws| ==> ws[i].template != template
    ensures WithTemplate(ws, template) == []
    decreases |ws|
  {
    if ws != [] {
      WithTemplateNone(ws[..|ws| - 1], template);
    }
  }

  lemma {:induction false} PageWritesCount(chunks: seq<seq<FileEntry>>, site: Site)
    ensures |PageWrites(chunks, site)| == |Flatten(chunks)| + |chunks|
    decreases |chunks|
  {
    if chunks != [] {
      PageWritesCount(chunks[..|chunks| - 1], site);
    }
  }

  lemma EntryWritesAppend(a: seq<FileEntry>, b: seq<FileEntry>, site: Site)
    ensures EntryWrites(a + b, site) == EntryWrites(a, site) + EntryWrites(b, site)
  {
  }

  /** Entry pages use the entry template and no other. */
  lemma EntryWritesTemplates(es: seq<FileEntry>, site: Site)
    ensures WithTemplate(EntryWrites(es, site), ENTRY_TEMPLATE) == EntryWrites(es, site)
    ensures WithTemplate(EntryWrites(es, site), INDEX_TEMPLATE) == []
  {
    WithTemplateAll(EntryWrites(es, site), ENTRY_TEMPLATE);
    WithTemplateNone(EntryWrites(es, site), INDEX_TEMPLATE);
  }

  /** An index page uses the index template and no other. */
  lemma IndexWriteTemplates(k: nat, chunk: seq<FileEntry>, site: Site)
    ensures WithTemplate([IndexWrite(k, chunk, site)], ENTRY_TEMPLATE) == []
    ensures WithTemplate([IndexWrite(k, chunk, site)], INDEX_TEMPLATE) == [IndexWrite(k, chunk, site)]
  {
    WithTemplateNone([IndexWrite(k, chunk, site)], ENTRY_TEMPLATE);
    WithTemplateAll([IndexWrite(k, chunk, site)], INDEX_TEMPLATE);
  }

  /** The writes of one more chunk, split by template. */
  lemma PageWritesTemplates(chunks: seq<seq<FileEntry>>, site: Site, template: string)
    requires chunks != []
    ensures var init, last := chunks[..|chunks| - 1], chunks[|chunks| - 1];
      WithTemplate(PageWrites(chunks, site), template)
        == WithTemplate(PageWrites(init, site), template)
         + WithTemplate(EntryWrites(last, site), template)
         + WithTemplate([IndexWrite(|chunks| - 1, last, site)], template)
  {
    var init, last := chunks[..|chunks| - 1], chunks[|chunks| - 1];
    var p, e, ix := PageWrites(init, site), EntryWrites(last, site), [IndexWrite(|chunks| - 1, last, site)];
    assert PageWrites(chunks, site) == p + e + ix;
    WithTemplateAppend(p + e, ix, template);
    WithTemplateAppend(p, e, template);
  }

  lemma {:induction false} PageWritesEntryPages(chunks: seq<seq<FileEntry>>, site: Site)
    ensures WithTemplate(PageWrites(chunks, site), ENTRY_TEMPLATE) == EntryWrites(Flatten(chunks), site)
    decreases |chunks|
  {
    if chunks != [] {
      var init, last := chunks[..|chunks| - 1], chunks[|chunks| - 1];
      PageWritesEntryPages(init, site);
      PageWritesTemplates(chunks, site, ENTRY_TEMPLATE);
      EntryWritesTemplates(last, site);
      IndexWriteTemplates(|chunks| - 1, last, site);
      assert Flatten(chunks) == Flatten(init) + last;
      EntryWritesAppend(Flatten(init), last, site);
    }
  }

  /** The index pages, one per chunk, in chunk order. */
  function IndexWrites(chunks: seq<seq<FileEntry>>, site: Site): seq<Write> {
    seq(|chunks|, k requires 0 <= k < |chunks| => IndexWrite(k, chunks[k], site))
  }

  lemma IndexWritesSnoc(chunks: seq<seq<FileEntry>>, site: Site)
    requires chunks != []
    ensures IndexWrites(chunks, site)
         == IndexWrites(chunks[..|chunks| - 1], site) + [IndexWrite(|chunks| - 1, chunks[|chunks| - 1], site)]
  {
  }

  lemma {:induction false} PageWritesIndexPages(chunks: seq<seq<FileEntry>>, site: Site)
    ensures WithTemplate(PageWrites(chunks, site), INDEX_TEMPLATE) == IndexWrites(chunks, site)
    decreases |chunks|
  {
    if chunks != [] {
      var init, last := chunks[..|chunks| - 1], chunks[|chunks| - 1];
      PageWritesIndexPages(init, site);
      PageWritesTemplates(chunks, site, INDEX_TEMPLATE);
      EntryWritesTemplates(last, site);
      IndexWriteTemplates(|chunks| - 1, last, site);
      IndexWritesSnoc(chunks, site);
    }
  }

  /** The feed and the tag list use neither the entry nor the index template. */
  lemma SitePagesByTemplate(entries: seq<FileEntry>, site: Site, template: string)
    requires site.opts.entries > 0 && template != ATOM_TEMPLATE && template != TAG_LIST_TEMPLATE
    ensures WithTemplate(SitePages(entries, site), template)
         == WithTemplate(PageWrites(Chunks(entries, site.opts.entries), site), template)
  {
    var chunks := Chunks(entries, site.opts.entries);
    var tail := [FeedWrite(FeedItems(chunks, site), site), TagsWrite(TagMapOf(EntryRefs(entries)))];
    assert SitePages(entries, site) == PageWrites(chunks, site) + tail;
    WithTemplateAppend(PageWrites(chunks, site), tail, template);
    WithTemplateNone(tail, template);
  }

  lemma SitePagesCount(entries: seq<FileEntry>, site: Site)
    requires site.opts.entries > 0
    ensures |SitePages(entries, site)| == |entries| + CeilDiv(|entries|, site.opts.entries) + 2
  {
    var chunks := Chunks(entries, site.opts.entries);
    ChunksFlatten(entries, site.opts.entries);
    ChunksShape(entries, site.opts.entries);
    PageWritesCount(chunks, site);
  }

  lemma SitePagesEntries(entries: seq<FileEntry>, site: Site)
    requires site.opts.entries > 0
    ensures WithTemplate(SitePages(entries, site), ENTRY_TEMPLATE) == EntryWrites(entries, site)
  {
    SitePagesByTemplate(entries, site, ENTRY_TEMPLATE);
    ChunksFlatten(entries, site.opts.entries);
    PageWritesEntryPages(Chunks(entries, site.opts.entries), site);
  }

  /**
   * The writes of a successful build: one entry page per entry, written to
   * the entry's URL, in sorted order; one index page per chunk, chunk `k` to
   * `IndexFileName(k)`; then the feed and the tag list. Nothing else.
   */
  lemma SitePagesLayout(entries: seq<FileEntry>, site: Site)
    requires site.opts.entries > 0
    ensures var ws := SitePages(entries, site);
      && |ws| == |entries| + CeilDiv(|entries|, site.opts.entries) + 2
      && WithTemplate(ws, ENTRY_TEMPLATE) == EntryWrites(entries, site)
      && WithTemplate(ws, INDEX_TEMPLATE) == IndexWrites(Chunks(entries, site.opts.entries), site)
      && ws[|ws| - 2].file == FEED_FILE && ws[|ws| - 2].template == ATOM_TEMPLATE
      && ws[|ws| - 1].file == TAGS_FILE && ws[|ws| - 1].template == TAG_LIST_TEMPLATE
  {
    SitePagesCount(entries, site);
    SitePagesEntries(entries, site);
    SitePagesByTemplate(entries, site, INDEX_TEMPLATE);
    PageWritesIndexPages(Chunks(entries, site.opts.entries), site);
  }

  /** No two index pages are written to the same file, and index page `k` lists chunk `k`. */
  lemma IndexPagesDistinct(entries: seq<FileEntry>, site: Site, k: nat, l: nat)
    requires site.opts.entries > 0
    requires k < l < |IndexWrites(Chunks(entries, site.opts.entries), site)|
    ensures var ix := IndexWrites(Chunks(entries, site.opts.entries), site);
      ix[k].file != ix[l].file && ix[k].data.index.contents == IndexItems(Chunks(entries, site.opts.entries)[k], site)
  {
    if IndexFileName(k) == IndexFileName(l) {
      IndexFileNamesDistinct(k, l);
    }
  }

  /** The feed lists exactly the first chunk: the newest `entries` entries, or all of them when there are fewer. */
  lemma FeedIsFirstChunk(entries: seq<FileEntry>, site: Site)
    requires site.opts.entries > 0
    ensures var ws := SitePages(entries, site);
      ws[|ws| - 2].data == FeedData(FeedPage(site.opts.title,
        FeedItemsOf(entries[..Min(|entries|, site.opts.entries)], site),
        site.now, site.opts.url, site.opts.description, site.domain))
  {
    if entries != [] {
      ChunkAt(entries, site.opts.entries, 0);
    }
  }

  /** Five entries, two to a page, make the chunks of two, two and one. */
  lemma ChunksOfFive(entries: seq<FileEntry>)
    requires |entries| == 5
    ensures Chunks(entries, 2) == [entries[..2], entries[2..4], entries[4..]]
  {
    var rest := entries[2..];
    assert rest[..2] == entries[2..4] && rest[2..] == entries[4..];
    assert Chunks(rest[2..], 2) == [entries[4..]];
    assert Chunks(rest, 2) == [entries[2..4], entries[4..]];
  }

  /**
   * Five entries, two to a page: ten files, the five entry pages, then index
   * pages `index.html`, `index1.html` and `index2.html` listing two, two and
   * one entries, and a feed of the newest two.
   */
  lemma FiveEntriesTwoPerPage(entries: seq<FileEntry>, site: Site)
    requires |entries| == 5 && site.opts.entries == 2
    ensures var ws := SitePages(entries, site);
      && |ws| == 10
      && WithTemplate(ws, ENTRY_TEMPLATE) == EntryWrites(entries, site)
      && WithTemplate(ws, INDEX_TEMPLATE)
         == [IndexWrite(0, entries[..2], site), IndexWrite(1, entries[2..4], site), IndexWrite(2, entries[4..], site)]
      && IndexFileName(0) == "index.html" && IndexFileName(1) == "index1.html" && IndexFileName(2) == "index2.html"
      && ws[8].data == FeedData(FeedPage(site.opts.title, FeedItemsOf(entries[..2], site),
                                         site.now, site.opts.url, site.opts.description, site.domain))
  {
    ChunksOfFive(entries);
    var chunks := Chunks(entries, 2);
    assert IndexWrites(chunks, site)
        == [IndexWrite(0, chunks[0], site), IndexWrite(1, chunks[1], site), IndexWrite(2, chunks[2], site)];
    FirstIndexFileNames();
    assert 3 * 2 <= 5 + 2 - 1 < 4 * 2;
    DivUnique(5 + 2 - 1, 2, 3);
    SitePagesLayout(entries, site);
    FeedIsFirstChunk(entries, site);
  }

  /** The tags of an entry list's references are the entries' tags, one by one. */
  lemma {:induction false} EntryRefsTags(es: seq<FileEntry>, tag: string)
    ensures tag in TagsOf(EntryRefs(es)) <==> exists i :: 0 <= i < |es| && tag in es[i].tags
    decreases |es|
  {
    if es != [] {
      var init, last := es[..|es| - 1], es[|es| - 1];
      EntryRefsTags(init, tag);
      assert TagsOf(EntryRefs(es)) == TagsOf(EntryRefs(init)) + last.tags;
      if exists i :: 0 <= i < |es| && tag in es[i].tags {
        var i :| 0 <= i < |es| && tag in es[i].tags;
        if i < |es| - 1 {
          assert init[i] == es[i];
        }
      }
      if exists i :: 0 <= i < |init| && tag in init[i].tags {
        var i :| 0 <= i < |init| && tag in init[i].tags;
        assert es[i] == init[i];
      }
    }
  }

  /**
   * The tag list page holds a map whose keys ascend, are exactly the tags of
   * the entries, and hold under each tag one reference per occurrence, in
   * sorted entry order.
   */
  lemma TagListContents(entries: seq<FileEntry>, site: Site)
    requires site.opts.entries > 0
    ensures var ws := SitePages(entries, site);
      && ws[|ws| - 1].data.TagsData?
      && var m := ws[|ws| - 1].data.tags;
      && Ordered(m)
      && (forall k :: k in Keys(m) <==> exists i :: 0 <= i < |entries| && k in entries[i].tags)
      && (forall k :: Lookup(m, k) == RefsTagged(EntryRefs(entries), k))
      && (forall k :: |Lookup(m, k)| == multiset(TagsOf(EntryRefs(entries)))[k])
  {
    var refs := EntryRefs(entries);
    TagMapContents(refs);
    forall k ensures |Lookup(TagMapOf(refs), k)| == multiset(TagsOf(refs))[k] {
      RefsTaggedCount(refs, k);
    }
    forall k ensures k in Keys(TagMapOf(refs)) <==> exists i :: 0 <= i < |entries| && k in entries[i].tags {
      EntryRefsTags(entries, k);
    }
  }

  /** The checks of `build_blog`, in the order it makes them: destination, URL, host, then the templates it renders. */
  lemma BlogErrors(entries: seq<FileEntry>, opts: Options, registered: set<string>, now: Timestamp, ext: Externals)
    requires opts.entries > 0
    ensures var r := SiteResult(entries, opts, registered, now, ext);
      && (opts.dest.None? ==> r == Failure(MissingValue("dest")))
      && (opts.dest.Some? && opts.url.None? ==> r == Failure(MissingValue("url")))
      && (opts.dest.Some? && opts.url.Some? && ext.hostOf(opts.url.value).Unparseable? ==> r == Failure(UrlParse))
      && (opts.dest.Some? && opts.url.Some? && ext.hostOf(opts.url.value).NoHost? ==> r == Failure(BadUrl))
      && (r.Failure? && r.error.TemplateNotFound? ==> r.error.template !in registered)
      && (r.Success? <==> opts.dest.Some? && opts.url.Some? && ext.hostOf(opts.url.value).Host?
                          && MissingTemplate(entries != [], registered).None?)
  {
  }

  /** With no entries the build renders neither entry nor index pages: it needs only the feed and tag-list templates and writes nothing else. */
  lemma EmptyBlog(opts: Options, registered: set<string>, now: Timestamp, ext: Externals)
    requires opts.entries > 0 && opts.dest.Some? && opts.url.Some? && ext.hostOf(opts.url.value).Host?
    requires ATOM_TEMPLATE in registered && TAG_LIST_TEMPLATE in registered
    ensures var r := SiteResult([], opts, registered, now, ext);
      r.Success? && |r.value| == 2 && r.value[0].data.FeedData? && r.value[0].data.feed.entries == []
      && r.value[1].data == TagsData([])
  {
  }

  /** What the chunk loop of `build_blog` has produced after `k` chunks. */
  predicate ChunkState(site: Site, chunks: seq<seq<FileEntry>>, k: nat,
                       writes: seq<Write>, feed: seq<FeedItem>, tagMap: TagMap) {
    && k <= |chunks|
    && writes == PageWrites(chunks[..k], site)
    && feed == (if k == 0 then [] else FeedItems(chunks, site))
    && tagMap == TagMapOf(EntryRefs(Flatten(chunks[..k])))
  }

  /** The tag loop of `build_blog`: records one reference per tag of `entry`, in tag order. */
  method RecordTags(ghost before: seq<TagRef>, tagMap: TagMap, entry: FileEntry) returns (m: TagMap)
    requires tagMap == TagMapOf(before)
    ensures m == TagMapOf(before + RefsOf(entry))
  {
    m := tagMap;
    assert before + RefsOf(entry)[..0] == before;
    var t := 0;
    while t < |entry.tags|
      invariant 0 <= t <= |entry.tags|
      invariant m == TagMapOf(before + RefsOf(entry)[..t])
    {
      var tag := entry.tags[t];
      RecordTag(before, entry, t);
      m := Append(m, tag, TagRef(entry.url, entry.title, tag));
      t := t + 1;
    }
    assert RefsOf(entry)[..t] == RefsOf(entry);
  }

  // ---------------------------------------------------------------------------
  // The builder

  class Builder {
    var opts: Options
    /** The source files, as listed and read from the source directory. */
    var files: seq<SourceFile>
    var entries: seq<FileEntry>
    /** The Handlebars registry: template name to template file. */
    var templates: map<string, Path>

    constructor (opts: Options, files: seq<SourceFile>, templates: map<string, Path>)
      ensures this.opts == opts && this.files == files && this.entries == [] && this.templates == templates
    {
      this.opts := opts;
      this.files := files;
      this.entries := [];
      this.templates := templates;
    }

    /**
     * `Builder::new`: fails without a destination or a source directory, and
     * otherwise registers every template file under its name.
     */
    static method New(opts: Options, sourceFiles: seq<SourceFile>, templateFiles: seq<Path>)
      returns (r: Result<Builder, BuildError>)
      ensures opts.dest.None? ==> r == Failure(MissingValue("dest"))
      ensures opts.dest.Some? && opts.src.None? ==> r == Failure(MissingValue("src"))
      ensures opts.dest.Some? && opts.src.Some? ==>
        && r.Success? && fresh(r.value)
        && r.value.opts == opts && r.value.files == sourceFiles && r.value.entries == []
        && Registers(templateFiles, r.value.templates)
    {
      if opts.dest.None? {
        return Failure(MissingValue("dest"));
      }
      if opts.src.None? {
        return Failure(MissingValue("src"));
      }
      var registry := RegisterTemplates(templateFiles);
      var b := new Builder(opts, sourceFiles, registry);
      r := Success(b);
    }

    /**
     * `build`: parses every source file onto the entries, sorts them newest
     * first, and builds the blog. `clock[k]` is the clock reading taken while
     * file `k` is parsed, `now` the one `build_blog` takes.
     */
    method Build(clock: seq<Timestamp>, now: Timestamp, ext: Externals) returns (r: Result<seq<Write>, BuildError>)
      requires opts.entries > 0 && |clock| == |files|
      modifies this
      ensures opts == old(opts) && files == old(files) && templates == old(templates)
      ensures entries == SortNewestFirst(old(entries) + EntriesOf(files, clock, ext))
      ensures r == SiteResult(entries, opts, templates.Keys, now, ext)
    {
      var parsed := ParseFiles(files, clock, ext);
      entries := SortNewestFirst(entries + parsed);
      r := BuildBlog(now, ext);
    }

    /** `build_blog` over the entries as they stand. */
    method BuildBlog(now: Timestamp, ext: Externals) returns (r: Result<seq<Write>, BuildError>)
      requires opts.entries > 0
      ensures r == SiteResult(entries, opts, templates.Keys, now, ext)
    {
      var perPage := opts.entries;
      var pagination := ComputePagination(|entries|, perPage);
      assert pagination == PaginationOf(|entries|, perPage);

      if opts.dest.None? {
        return Failure(MissingValue("dest"));
      }
      if opts.url.None? {
        return Failure(MissingValue("url"));
      }
      var host := ext.hostOf(opts.url.value);
      if host.Unparseable? {
        return Failure(UrlParse);
      }
      if host.NoHost? {
        return Failure(BadUrl);
      }
      var site := Site(opts, now, ext, host.domain, pagination);
      BlogPastChecks(entries, opts, templates.Keys, now, ext, host.domain);
      r := RenderPages(site);
    }

    /**
     * The rest of `build_blog`: per chunk, its entry pages, feed items and tag
     * references, then its index page; then the feed and the tag list.
     */
    method RenderPages(site: Site) returns (r: Result<seq<Write>, BuildError>)
      requires site.opts == opts && opts.entries > 0
      requires site.pagination == PaginationOf(|entries|, opts.entries)
      ensures r == Rendered(entries, site, templates.Keys)
    {
      var chunks := Chunks(entries, opts.entries);
      ChunksNonEmpty(entries, opts.entries);
      var missing, writes, feed, tagMap := RenderChunks(site, chunks);
      if missing.Some? {
        return Failure(TemplateNotFound(missing.value));
      }
      SitePagesOfState(entries, site, writes, feed, tagMap);

      if ATOM_TEMPLATE !in templates {
        return Failure(TemplateNotFound(ATOM_TEMPLATE));
      }
      writes := writes + [FeedWrite(feed, site)];
      if TAG_LIST_TEMPLATE !in templates {
        return Failure(TemplateNotFound(TAG_LIST_TEMPLATE));
      }
      writes := writes + [TagsWrite(tagMap)];
      r := Success(writes);
    }

    /** The chunk loop of `build_blog`, stopping at the first template that is not registered. */
    method RenderChunks(site: Site, chunks: seq<seq<FileEntry>>)
      returns (missing: Option<string>, writes: seq<Write>, feed: seq<FeedItem>, tagMap: TagMap)
      requires forall k :: 0 <= k < |chunks| ==> chunks[k] != []
      ensures missing.Some? ==> chunks != [] && missing == MissingTemplate(true, templates.Keys)
      ensures missing.None? ==>
        && (chunks != [] ==> ENTRY_TEMPLATE in templates && INDEX_TEMPLATE in templates)
        && ChunkState(site, chunks, |chunks|, writes, feed, tagMap)
    {
      feed, tagMap, writes := [], [], [];
      var count := 0;
      while count < |chunks|
        invariant 0 <= count <= |chunks|
        invariant ChunkState(site, chunks, count, writes, feed, tagMap)
        invariant count > 0 ==> ENTRY_TEMPLATE in templates && INDEX_TEMPLATE in templates
      {
        var w, f, m;
        missing, w, f, m := RenderChunk(site, chunks, count, writes, feed, tagMap);
        if missing.Some? {
          return;
        }
        writes, feed, tagMap := w, f, m;
        count := count + 1;
      }
      missing := None;
    }

    /**
     * The entry loop for one chunk: an entry page per entry, a feed item per
     * entry when it is the first chunk, and the entry's tags recorded after
     * those of the entries `done` before it; `ok` is false when the entry
     * template is missing.
     */
    method RenderEntries(site: Site, entrySet: seq<FileEntry>, first: bool, ghost done: seq<FileEntry>,
                         writes0: seq<Write>, feed0: seq<FeedItem>, tagMap0: TagMap)
      returns (ok: bool, writes: seq<Write>, feed: seq<FeedItem>, tagMap: TagMap)
      requires entrySet != []
      requires tagMap0 == TagMapOf(EntryRefs(done))
      ensures ok <==> ENTRY_TEMPLATE in templates
      ensures ok ==> writes == writes0 + EntryWrites(entrySet, site)
      ensures ok ==> feed == if first then feed0 + FeedItemsOf(entrySet, site) else feed0
      ensures ok ==> tagMap == TagMapOf(EntryRefs(done + entrySet))
    {
      writes, feed, tagMap := writes0, feed0, tagMap0;
      assert done + entrySet[..0] == done;
      assert feed0 + FeedItemsOf(entrySet[..0], site) == feed0;
      assert writes0 + EntryWrites(entrySet[..0], site) == writes0;
      ghost var refs := EntryRefs(done);
      var j := 0;
      while j < |entrySet|
        invariant 0 <= j <= |entrySet|
        invariant writes == writes0 + EntryWrites(entrySet[..j], site)
        invariant feed == if first then feed0 + FeedItemsOf(entrySet[..j], site) else feed0
        invariant refs == EntryRefs(done + entrySet[..j])
        invariant tagMap == TagMapOf(refs)
        invariant j > 0 ==> ENTRY_TEMPLATE in templates
      {
        var entry := entrySet[j];
        if ENTRY_TEMPLATE !in templates {
          return false, writes, feed, tagMap;
        }
        WritesSnoc(writes0, entrySet, j, site);
        writes := writes + [EntryWrite(entry, site)];
        if first {
          FeedSnoc(feed0, entrySet, j, site);
          feed := feed + [FeedItemOf(entry, site)];
        }
        tagMap := RecordTags(refs, tagMap, entry);
        NextEntry(done, entrySet, j);
        refs := refs + RefsOf(entry);
        j := j + 1;
      }
      assert entrySet[..j] == entrySet;
      ok := true;
    }

    /**
     * One turn of the chunk loop of `build_blog`: the chunk's entry pages,
     * feed items (first chunk only) and tag references, then its index page.
     * It stops at the first template that is not registered.
     */
    method RenderChunk(site: Site, chunks: seq<seq<FileEntry>>, count: nat,
                       writes0: seq<Write>, feed0: seq<FeedItem>, tagMap0: TagMap)
      returns (missing: Option<string>, writes: seq<Write>, feed: seq<FeedItem>, tagMap: TagMap)
      requires count < |chunks| && chunks[count] != []
      requires ChunkState(site, chunks, count, writes0, feed0, tagMap0)
      ensures missing.Some? ==> missing == MissingTemplate(true, templates.Keys)
      ensures missing.None? ==>
        && ENTRY_TEMPLATE in templates && INDEX_TEMPLATE in templates
        && ChunkState(site, chunks, count + 1, writes, feed, tagMap)
    {
      var entrySet := chunks[count];
      var ok;
      ok, writes, feed, tagMap := RenderEntries(site, entrySet, count == 0, Flatten(chunks[..count]), writes0, feed0, tagMap0);
      if !ok {
        return Some(ENTRY_TEMPLATE), writes, feed, tagMap;
      }
      if INDEX_TEMPLATE !in templates {
        return Some(INDEX_TEMPLATE), writes, feed, tagMap;
      }
      var pageData := IndexPage(site.opts.title, IndexItems(entrySet, site), site.pagination, site.now,
                                site.opts.description, site.opts.url);
      var indexFile := IndexFileName(count);
      PageWritesSnoc(chunks, count, site);
      FlattenSnoc(chunks, count);
      writes := writes + [Write(indexFile, INDEX_TEMPLATE, IndexData(pageData))];
      missing := None;
    }
  }
}
