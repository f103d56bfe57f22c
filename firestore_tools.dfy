/**
  The store-backed news archive (`app/tools/firestore_tools.py`): news items
  are identified by their url, stored under document ids derived from a
  hash of the url (or of the title when there is none), and added in
  batches that skip the urls the store already holds.

  The store itself is an in-memory map from document id to record. SHA-256
  and `urlparse(url).netloc` are parameters: `sha` is any function to 64
  lower-case hex digits, `netloc` any function on strings.
 */
module FirestoreTools {
  import opened Text
  import opened Markdown
  import opened Dates

  predicate IsHex(c: char) {
    '0' <= c <= '9' || 'a' <= c <= 'f'
  }

  predicate AllHex(s: string) {
    forall i :: 0 <= i < |s| ==> IsHex(s[i])
  }

  /** `hashlib.sha256(...).hexdigest()`: 64 lower-case hex digits. */
  type Digest = s: string | |s| == 64 && AllHex(s)
    witness Zeros(64)

  function Zeros(n: nat): (s: string)
    ensures |s| == n && AllHex(s)
  {
    if n == 0 then [] else Zeros(n - 1) + "0"
  }

  /** `NewsItem(title, url, date, domain)`; `None` is Python's `None`. */
  datatype NewsItem = NewsItem(title: string, url: string, date: Option<string>, domain: Option<string>)

  /** Every `NewsItem` object: its constructor strips title and url, and nothing reassigns them. */
  type Item = x: NewsItem | Trimmed(x.title) && Trimmed(x.url)
    witness NewsItem("", "", None, None)

  /**
    The constructor. The domain is `domain or netloc(url) if url else None`,
    decided on the url as passed, before it is stripped: `None` when that
    url is empty, the given domain when it is a non-empty string, the url's
    network location otherwise.
   */
  function MakeItem(title: string, url: string, date: Option<string>, domain: Option<string>,
                    netloc: string -> string): (r: Item)
    ensures r.title == Strip(title) && r.url == Strip(url) && r.date == date
  {
    StripTrimmed(Strip(title));
    var d := if url == [] then None
             else if domain.Some? && domain.value != [] then domain
             else Some(netloc(url));
    NewsItem(Strip(title), Strip(url), date, d)
  }

  /** The domain is absent exactly when the url passed in is empty, whatever domain was given. */
  lemma DomainAbsentIffNoUrl(title: string, url: string, date: Option<string>, domain: Option<string>,
                             netloc: string -> string)
    ensures var r := MakeItem(title, url, date, domain, netloc);
            && (r.domain.None? <==> url == [])
            && (url != [] && domain.Some? && domain.value != [] ==> r.domain == domain)
            && (url != [] && (domain.None? || domain.value == []) ==> r.domain == Some(netloc(url)))
  {
  }

  /**
    The domain test looks at the url before it is stripped: a url of blanks
    leaves an item with an empty url and a domain all the same.
   */
  lemma BlankUrlKeepsDomain(netloc: string -> string)
    ensures MakeItem("t", " ", None, Some("x.com"), netloc) == NewsItem("t", "", None, Some("x.com"))
  {
    assert LStrip(" ") == [];
    assert Strip("t") == "t";
  }

  /** `__eq__` and `__hash__`: two items are the same exactly when their urls are. */
  predicate SameItem(a: Item, b: Item) {
    a.url == b.url
  }

  /**
    Items built by the constructor are the same exactly when their urls
    agree once stripped, whatever their titles, dates and domains.
   */
  lemma SameItemIffUrlsMatch(t1: string, u1: string, t2: string, u2: string,
                             d1: Option<string>, d2: Option<string>,
                             dm1: Option<string>, dm2: Option<string>, netloc: string -> string)
    ensures SameItem(MakeItem(t1, u1, d1, dm1, netloc), MakeItem(t2, u2, d2, dm2, netloc))
            <==> Strip(u1) == Strip(u2)
  {
  }

  /**
    `get_document_id`: `news_` and the first 20 hex digits of the url's
    hash; for an item without url, the first 20 hex digits of the title's
    hash, unprefixed.
   */
  function DocumentIdOf(title: string, url: string, sha: string -> Digest): (id: string)
    ensures url != [] ==> |id| == 25 && id[..5] == "news_" && AllHex(id[5..])
    ensures url == [] ==> |id| == 20 && AllHex(id)
  {
    if url == [] then sha(title)[..20] else "news_" + sha(url)[..20]
  }

  function DocumentId(x: Item, sha: string -> Digest): string {
    DocumentIdOf(x.title, x.url, sha)
  }

  /** The id of an item with a url depends on nothing but the url. */
  lemma DocumentIdByUrl(x: Item, y: Item, sha: string -> Digest)
    requires x.url == y.url && x.url != []
    ensures DocumentId(x, sha) == DocumentId(y, sha)
  {
  }

  /** An item with a url and one without never share a document id. */
  lemma DocumentIdsApart(x: Item, y: Item, sha: string -> Digest)
    requires x.url != [] && y.url == []
    ensures DocumentId(x, sha) != DocumentId(y, sha)
  {
  }

  /** A stored document: the fields of `to_dict`, with `created_at` given. */
  datatype Record = Record(title: string, url: string, date: Option<string>, domain: Option<string>, createdAt: int)

  /** `to_dict`, at time `now`. */
  function ToRecord(x: Item, now: int): (r: Record)
    ensures r.title == x.title && r.url == x.url && r.date == x.date && r.domain == x.domain
    ensures r.createdAt == now
  {
    Record(x.title, x.url, x.date, x.domain, now)
  }

  /** `from_dict`: the record's fields run through the constructor again. */
  function FromRecord(r: Record, netloc: string -> string): Item {
    MakeItem(r.title, r.url, r.date, r.domain, netloc)
  }

  /** An item whose domain is what the constructor would give for its own (stripped) url. */
  predicate Settled(x: Item, netloc: string -> string) {
    && (x.url == [] ==> x.domain.None?)
    && (x.url != [] ==> x.domain.Some? && (x.domain.value == [] ==> netloc(x.url) == []))
  }

  /** Items built from an already stripped url are settled. */
  lemma MakeItemSettled(title: string, url: string, date: Option<string>, domain: Option<string>,
                        netloc: string -> string)
    requires Trimmed(url)
    ensures Settled(MakeItem(title, url, date, domain, netloc), netloc)
  {
    StripTrimmed(url);
  }

  /** Round trip: a settled item, stored and read back, is the same item. */
  lemma RecordRoundTrip(x: Item, now: int, netloc: string -> string)
    requires Settled(x, netloc)
    ensures FromRecord(ToRecord(x, now), netloc) == x
  {
    StripTrimmed(x.title);
    StripTrimmed(x.url);
  }

  /** The blank-url item of `BlankUrlKeepsDomain` loses its domain once stored and read back. */
  lemma BlankUrlLosesDomain(now: int, netloc: string -> string)
    ensures var x := MakeItem("t", " ", None, Some("x.com"), netloc);
            FromRecord(ToRecord(x, now), netloc).domain == None && x.domain == Some("x.com")
  {
    BlankUrlKeepsDomain(netloc);
  }

  /** `str(item)`: `* title - [domain](url)` when there are both a url and a domain, else `* title`. */
  function Render(x: Item): string {
    if x.url != [] && x.domain.Some? && x.domain.value != []
    then "* " + x.title + LinkSuffix(Link(x.domain.value, x.url))
    else "* " + x.title
  }

  /** The item a parsed bullet becomes, dated `date`: the link's domain and url are both kept. */
  function FromBullet(b: Bullet, date: Option<string>, netloc: string -> string): Item {
    match b.link
    case Some(l) => MakeItem(b.title, l.url, date, Some(l.domain), netloc)
    case None => MakeItem(b.title, "", date, None, netloc)
  }

  /** An item whose rendering the parser reads back unchanged. */
  predicate WellFormed(x: Item) {
    && PlainText(x.title)
    && (x.url == [] ==> x.domain.None?)
    && (x.url != [] ==> x.domain.Some? && x.domain.value != [] && ']' !in x.domain.value && ')' !in x.url)
  }

  /**
    Round trip: a well-formed item, rendered as a bullet line and parsed
    again with its own date, is the same item, domain included.
   */
  lemma RenderParse(x: Item, netloc: string -> string)
    requires WellFormed(x)
    ensures Classify(Render(x)).Item?
    ensures FromBullet(Classify(Render(x)).bullet, x.date, netloc) == x
  {
    if x.url != [] {
      var l := Link(x.domain.value, x.url);
      var t := x.title + LinkSuffix(l);
      assert Render(x) == "* " + t;
      assert t[0] == x.title[0] && t[|t| - 1] == ')';
      BulletLine(t);
      BulletTextWithLink(x.title, l);
    } else {
      BulletLine(x.title);
      BulletTextPlain(x.title);
    }
    StripTrimmed(x.title);
    StripTrimmed(x.url);
  }

  /**
    An item with a url but no domain renders as `* title`, so reading it
    back loses the url.
   */
  lemma UrlLostWithoutDomain(x: Item, netloc: string -> string)
    requires PlainText(x.title) && x.url != [] && x.domain.None?
    ensures Classify(Render(x)).Item?
    ensures FromBullet(Classify(Render(x)).bullet, x.date, netloc).url == []
  {
    BulletLine(x.title);
    BulletTextPlain(x.title);
  }

  /** The parser's item constructor: an item is dated with the label of its section. */
  function Dated(netloc: string -> string): (Bullet, string) -> Item {
    (b: Bullet, name: string) => FromBullet(b, Some(name), netloc)
  }

  /** The sections of a document, as this tool's `parse_markdown_content` builds them. */
  function Parsed(content: string, netloc: string -> string): (r: Sections<Item>)
    ensures r.Valid()
  {
    ParseLinesByKinds(Split(content, '\n'), Dated(netloc));
    ParseValid(Kinds(Split(content, '\n')), Dated(netloc));
    ParseLines(Split(content, '\n'), Dated(netloc)).sections
  }

  /** `parse_markdown_content`. */
  method ParseMarkdownContent(content: string, netloc: string -> string) returns (sections: Sections<Item>)
    ensures sections.Valid()
    ensures sections == Parsed(content, netloc)
  {
    sections := ParseMarkdownSections(content, Dated(netloc));
  }

  /** Every parsed item carries the label of the section it is filed under as its date. */
  lemma ParsedItemsDated(content: string, netloc: string -> string, k: string, x: Item)
    requires k in Parsed(content, netloc).items && x in Parsed(content, netloc).items[k]
    ensures x.date == Some(k)
  {
    var lines := Split(content, '\n');
    ParseLinesByKinds(lines, Dated(netloc));
    ItemsCarryTheirLabel(Kinds(lines), Dated(netloc), k, x);
    DatedCarriesLabel(netloc, k);
  }

  lemma DatedCarriesLabel(netloc: string -> string, k: string)
    ensures forall b :: Dated(netloc)(b, k).date == Some(k)
  {
  }

  /** The extraction's item constructor: every item gets the date passed in. */
  function WithDate(date: Option<string>, netloc: string -> string): Bullet -> Item {
    (b: Bullet) => FromBullet(b, date, netloc)
  }

  /** `extract_news_items_from_text`: every bullet line of the text, each dated `date`. */
  method ExtractNewsItems(text: string, date: Option<string>, netloc: string -> string) returns (items: seq<Item>)
    ensures items == BulletItems(Split(text, '\n'), WithDate(date, netloc))
  {
    items := ExtractBulletItems(text, WithDate(date, netloc));
  }

  /** Every extracted item carries the date passed in. */
  lemma {:induction false} ExtractedDated(lines: seq<string>, date: Option<string>, netloc: string -> string)
    ensures forall x :: x in BulletItems(lines, WithDate(date, netloc)) ==> x.date == date
  {
    if lines != [] {
      ExtractedDated(lines[..|lines| - 1], date, netloc);
    }
  }

  /** The urls of stored records: what a query on `url` can find. */
  function UrlsIn(docs: map<string, Record>): set<string> {
    set id | id in docs :: docs[id].url
  }

  /** `find_unseen_news`: the items, in order, whose url is not among those seen. */
  function FindUnseen(seen: set<string>, items: seq<Item>): (r: seq<Item>)
    ensures |r| <= |items|
  {
    if items == [] then []
    else
      var last := items[|items| - 1];
      FindUnseen(seen, items[..|items| - 1]) + (if last.url in seen then [] else [last])
  }

  /** An item is kept exactly when its url is unseen; the title plays no part. */
  lemma {:induction false} FindUnseenMembers(seen: set<string>, items: seq<Item>)
    ensures forall x :: x in FindUnseen(seen, items) <==> x in items && x.url !in seen
  {
    if items != [] {
      var init := items[..|items| - 1];
      FindUnseenMembers(seen, init);
      assert items == init + [items[|items| - 1]];
    }
  }

  /** A single item is kept exactly when its url is unseen. */
  lemma FindUnseenOne(seen: set<string>, x: Item)
    ensures FindUnseen(seen, [x]) == if x.url in seen then [] else [x]
  {
    assert [x][..0] == [];
  }

  /**
    The filter goes item by item: filtering a concatenation is concatenating
    the filtered parts, so order and repeats within a batch are kept.
   */
  lemma {:induction false} FindUnseenAppend(seen: set<string>, a: seq<Item>, b: seq<Item>)
    ensures FindUnseen(seen, a + b) == FindUnseen(seen, a) + FindUnseen(seen, b)
  {
    if b == [] {
      assert a + b == a;
    } else {
      var init, last := b[..|b| - 1], b[|b| - 1];
      assert (a + b)[..|a + b| - 1] == a + init;
      assert (a + b)[|a + b| - 1] == last;
      FindUnseenAppend(seen, a, init);
      var tail := if last.url in seen then [] else [last];
      ConcatAssoc(FindUnseen(seen, a), FindUnseen(seen, init), tail);
    }
  }

  /** Filtering twice with the same seen urls changes nothing. */
  lemma {:induction false} FindUnseenIdempotent(seen: set<string>, items: seq<Item>)
    ensures FindUnseen(seen, FindUnseen(seen, items)) == FindUnseen(seen, items)
  {
    if items != [] {
      var init := items[..|items| - 1];
      var last := items[|items| - 1];
      FindUnseenIdempotent(seen, init);
      var u := FindUnseen(seen, init);
      if last.url !in seen {
        var r := u + [last];
        assert FindUnseen(seen, items) == r;
        assert r[..|r| - 1] == u;
      } else {
        assert FindUnseen(seen, items) == u + [] == u;
      }
    }
  }

  /** Items repeating one url are all kept when the url is unseen: nothing dedups within the list. */
  lemma FindUnseenKeepsRepeats(seen: set<string>, x: Item)
    requires x.url !in seen
    ensures FindUnseen(seen, [x, x]) == [x, x]
  {
    assert [x, x][..1] == [x];
    assert [x][..0] == [];
  }

  /** The batch size of a query `in` a list of urls. */
  const ChunkSize := 30

  function Min(a: int, b: int): int {
    if a <= b then a else b
  }

  /** `xs[i:i + size] for i in range(0, len(xs), size)`. */
  function Chunks<T>(xs: seq<T>, size: nat): seq<seq<T>>
    requires size > 0
    decreases |xs|
  {
    if xs == [] then [] else [xs[..Min(size, |xs|)]] + Chunks(xs[Min(size, |xs|)..], size)
  }

  /** The concatenation of a list of lists. */
  function Concat<T>(cs: seq<seq<T>>): seq<T> {
    if cs == [] then [] else Concat(cs[..|cs| - 1]) + cs[|cs| - 1]
  }

  lemma {:induction false} ConcatCons<T>(c: seq<T>, cs: seq<seq<T>>)
    ensures Concat([c] + cs) == c + Concat(cs)
    decreases |cs|
  {
    if cs == [] {
      assert [c] + cs == [c];
      assert Concat([c][..0]) == [];
    } else {
      var init := cs[..|cs| - 1];
      ConcatCons(c, init);
      assert ([c] + cs)[..|cs|] == [c] + init;
    }
  }

  /** Concatenating the chunks gives back the list. */
  lemma {:induction false} ChunksConcat<T>(xs: seq<T>, size: nat)
    requires size > 0
    ensures Concat(Chunks(xs, size)) == xs
    decreases |xs|
  {
    if xs != [] {
      var m := Min(size, |xs|);
      ChunksConcat(xs[m..], size);
      ConcatCons(xs[..m], Chunks(xs[m..], size));
      assert xs[..m] + xs[m..] == xs;
    }
  }

  /** Every chunk holds between one and `size` elements. */
  lemma {:induction false} ChunkSizes<T>(xs: seq<T>, size: nat)
    requires size > 0
    ensures forall c :: c in Chunks(xs, size) ==> 1 <= |c| <= size
    decreases |xs|
  {
    if xs != [] {
      ChunkSizes(xs[Min(size, |xs|)..], size);
    }
  }

  /** There are `ceil(n / size)` chunks: just enough to hold the list, with no chunk to spare. */
  lemma {:induction false} ChunkCount<T>(xs: seq<T>, size: nat)
    requires size > 0
    ensures var n := |Chunks(xs, size)|;
            (xs == [] ==> n == 0) && (xs != [] ==> (n - 1) * size < |xs| <= n * size)
    decreases |xs|
  {
    if xs != [] {
      var m := Min(size, |xs|);
      var rest := xs[m..];
      ChunkCount(rest, size);
      var n' := |Chunks(rest, size)|;
      assert |Chunks(xs, size)| == n' + 1;
      if rest != [] {
        assert (n' + 1) * size == n' * size + size;
        assert ((n' + 1) - 1) * size == n' * size;
      }
    }
  }

  /** Sixty-five urls are queried in chunks of 30, 30 and 5. */
  lemma ChunksOf65<T>(xs: seq<T>)
    requires |xs| == 65
    ensures var cs := Chunks(xs, ChunkSize);
            |cs| == 3 && |cs[0]| == 30 && |cs[1]| == 30 && |cs[2]| == 5
  {
    var r1 := xs[30..];
    var r2 := r1[30..];
    assert Chunks(xs, ChunkSize) == [xs[..30]] + Chunks(r1, ChunkSize);
    assert Chunks(r1, ChunkSize) == [r1[..30]] + Chunks(r2, ChunkSize);
    assert r2[..5] == r2 && r2[5..] == [];
    assert Chunks(r2, ChunkSize) == [r2] + Chunks(r2[5..], ChunkSize);
  }

  /** `[item.url for item in news_items if item.url]`: the non-empty urls, in order, repeats kept. */
  function UrlList(items: seq<Item>): (urls: seq<string>)
    ensures |urls| <= |items|
  {
    if items == [] then []
    else
      var last := items[|items| - 1];
      UrlList(items[..|items| - 1]) + (if last.url != [] then [last.url] else [])
  }

  lemma {:induction false} UrlListMembers(items: seq<Item>)
    ensures forall u :: u in UrlList(items) <==> u != [] && exists x :: x in items && x.url == u
  {
    if items != [] {
      var init := items[..|items| - 1];
      UrlListMembers(init);
      assert items == init + [items[|items| - 1]];
    }
  }

  /** One item contributes its url, or nothing when it has none. */
  lemma UrlListOne(x: Item)
    ensures UrlList([x]) == if x.url != [] then [x.url] else []
  {
    assert [x][..0] == [];
  }

  /** The url list is built item by item: a url given twice is listed twice. */
  lemma {:induction false} UrlListAppend(a: seq<Item>, b: seq<Item>)
    ensures UrlList(a + b) == UrlList(a) + UrlList(b)
  {
    if b == [] {
      assert a + b == a;
    } else {
      var init, last := b[..|b| - 1], b[|b| - 1];
      assert (a + b)[..|a + b| - 1] == a + init;
      assert (a + b)[|a + b| - 1] == last;
      UrlListAppend(a, init);
      var tail := if last.url != [] then [last.url] else [];
      ConcatAssoc(UrlList(a), UrlList(init), tail);
    }
  }

  /** A record is filed under the id of its own title and url, both stripped. */
  predicate Filed(id: string, r: Record, sha: string -> Digest) {
    Trimmed(r.title) && Trimmed(r.url) && id == DocumentIdOf(r.title, r.url, sha)
  }

  /** The invariant of the store: every record is filed under its own id. */
  predicate Keyed(docs: map<string, Record>, sha: string -> Digest) {
    forall id :: id in docs ==> Filed(id, docs[id], sha)
  }

  /** A keyed store holds at most one record per non-empty url. */
  lemma OneRecordPerUrl(docs: map<string, Record>, sha: string -> Digest, i: string)
    requires Keyed(docs, sha)
    requires i in docs && docs[i].url != []
    ensures forall j :: j in docs && docs[j].url == docs[i].url ==> j == i
  {
  }

  /** The query `url == u` finds nothing exactly when no record has url `u`. */
  lemma NoneMatching(docs: map<string, Record>, url: string)
    ensures (set id | id in docs && docs[id].url == url) == {} <==> url !in UrlsIn(docs)
  {
    var matching := set id | id in docs && docs[id].url == url;
    if url in UrlsIn(docs) {
      var id :| id in docs && docs[id].url == url;
      assert id in matching;
      assert matching != {};
    } else {
      assert forall id :: id in docs ==> docs[id].url in UrlsIn(docs);
    }
  }

  /** `document(doc_id).set(item.to_dict())`: the record is written under the item's id, replacing any there. */
  function Put(docs: map<string, Record>, x: Item, sha: string -> Digest, now: int): (r: map<string, Record>)
    ensures Keyed(docs, sha) ==> Keyed(r, sha)
  {
    docs[DocumentId(x, sha) := ToRecord(x, now)]
  }

  /** The batch writes, one `set` per item in order: a later write to the same id replaces an earlier one. */
  function Stage(docs: map<string, Record>, xs: seq<Item>, sha: string -> Digest, now: int): (r: map<string, Record>)
    ensures Keyed(docs, sha) ==> Keyed(r, sha)
  {
    if xs == [] then docs else Put(Stage(docs, xs[..|xs| - 1], sha, now), xs[|xs| - 1], sha, now)
  }

  /** Every item written has a record under its id afterwards: a write is never undone by a later one. */
  lemma {:induction false} StageIds(docs: map<string, Record>, xs: seq<Item>, sha: string -> Digest, now: int)
    ensures forall x :: x in xs ==> DocumentId(x, sha) in Stage(docs, xs, sha, now)
    ensures forall id :: id in docs ==> id in Stage(docs, xs, sha, now)
  {
    if xs != [] {
      var init := xs[..|xs| - 1];
      StageIds(docs, init, sha, now);
      assert forall x :: x in xs ==> x in init || x == xs[|xs| - 1];
    }
  }

  /** Every record after the writes is either one the store held or the record of a written item. */
  lemma {:induction false} StageOrigin(docs: map<string, Record>, xs: seq<Item>, sha: string -> Digest, now: int)
    ensures forall id :: id in Stage(docs, xs, sha, now) ==>
              (id in docs && Stage(docs, xs, sha, now)[id] == docs[id])
              || exists x :: x in xs && id == DocumentId(x, sha) && Stage(docs, xs, sha, now)[id] == ToRecord(x, now)
  {
    if xs != [] {
      var init, last := xs[..|xs| - 1], xs[|xs| - 1];
      StageOrigin(docs, init, sha, now);
      assert forall x :: x in init ==> x in xs;
    }
  }

  lemma FindUnseenSnoc(seen: set<string>, items: seq<Item>, k: nat)
    requires k < |items|
    ensures items[k].url in seen ==> FindUnseen(seen, items[..k + 1]) == FindUnseen(seen, items[..k])
    ensures items[k].url !in seen ==> FindUnseen(seen, items[..k + 1]) == FindUnseen(seen, items[..k]) + [items[k]]
  {
    assert items[..k + 1][..k] == items[..k];
    var prev := FindUnseen(seen, items[..k]);
    assert prev + [] == prev;
  }

  lemma StageSnoc(docs: map<string, Record>, xs: seq<Item>, x: Item, sha: string -> Digest, now: int)
    ensures Stage(docs, xs + [x], sha, now) == Put(Stage(docs, xs, sha, now), x, sha, now)
  {
    assert (xs + [x])[..|xs|] == xs;
  }

  /** `url in chunk` for a chunk of the urls: what a query with `in` returns from the store. */
  function WhereUrlIn(docs: map<string, Record>, chunk: seq<string>): set<string> {
    set id | id in docs && docs[id].url in chunk :: docs[id].url
  }

  /** The urls of `us` the store holds. */
  function Found(docs: map<string, Record>, us: seq<string>): set<string> {
    set u | u in us && u in UrlsIn(docs)
  }

  lemma WhereUrlInFound(docs: map<string, Record>, chunk: seq<string>)
    ensures WhereUrlIn(docs, chunk) == Found(docs, chunk)
  {
    forall u | u in Found(docs, chunk) ensures u in WhereUrlIn(docs, chunk) {
      var id :| id in docs && docs[id].url == u;
    }
  }

  lemma FoundAppend(docs: map<string, Record>, a: seq<string>, b: seq<string>)
    ensures Found(docs, a + b) == Found(docs, a) + Found(docs, b)
  {
    assert forall u :: u in a + b <==> u in a || u in b;
  }

  /** The urls of the batch the store already holds. */
  function Known(docs: map<string, Record>, items: seq<Item>): set<string> {
    Found(docs, UrlList(items))
  }

  /**
    An item of a batch is written exactly when it has no url or its url is
    not stored: items without a url are written too.
   */
  lemma BatchStagesFresh(docs: map<string, Record>, items: seq<Item>)
    ensures forall x :: x in FindUnseen(Known(docs, items), items)
              <==> x in items && (x.url == [] || x.url !in UrlsIn(docs))
  {
    FindUnseenMembers(Known(docs, items), items);
    UrlListMembers(items);
  }

  /**
    Two items of one batch with the same url, not stored, are both written
    and counted: the url is looked up once, before any write, and the unseen
    filter does not drop repeats. With a non-empty url both writes go to one
    id, so the second replaces the first.
   */
  lemma BatchKeepsRepeatedUrl(docs: map<string, Record>, x: Item, y: Item, sha: string -> Digest, now: int)
    requires x.url == y.url && x.url !in UrlsIn(docs)
    ensures var staged := FindUnseen(Known(docs, [x, y]), [x, y]);
            && staged == [x, y]
            && (x.url != [] ==> Stage(docs, staged, sha, now) == Put(docs, y, sha, now))
  {
    var known := Known(docs, [x, y]);
    assert x.url !in known;
    FindUnseenPair(known, x, y);
    if x.url != [] {
      StagePair(docs, x, y, sha, now);
    }
  }

  lemma FindUnseenPair(seen: set<string>, x: Item, y: Item)
    requires x.url !in seen && y.url !in seen
    ensures FindUnseen(seen, [x, y]) == [x, y]
  {
    assert [x, y] == [x] + [y];
    FindUnseenAppend(seen, [x], [y]);
    FindUnseenOne(seen, x);
    FindUnseenOne(seen, y);
  }

  /** Two writes to the id of one url: the second replaces the first. */
  lemma StagePair(docs: map<string, Record>, x: Item, y: Item, sha: string -> Digest, now: int)
    requires x.url == y.url && x.url != []
    ensures Stage(docs, [x, y], sha, now) == Put(docs, y, sha, now)
  {
    DocumentIdByUrl(x, y, sha);
    var id := DocumentId(x, sha);
    StageSnoc(docs, [], x, sha, now);
    StageSnoc(docs, [x], y, sha, now);
    assert [] + [x] == [x] && [x] + [y] == [x, y];
    UpdateTwice(docs, id, ToRecord(x, now), ToRecord(y, now));
  }

  /** A second update of one key replaces the first; stated once, as map equality the solver finds costly. */
  lemma UpdateTwice<K, V>(m: map<K, V>, k: K, a: V, b: V)
    ensures m[k := a][k := b] == m[k := b]
  {
  }

  /**
    Running the same batch twice: the second run writes nothing and reports
    no item added, provided every item has a url and items with different
    urls have different ids (no two urls share the first 20 hex digits of
    their hashes). An item without a url is written again on every run: its
    url is never looked up, so nothing marks it as stored.
   */
  lemma RepeatBatchAddsNothing(docs: map<string, Record>, items: seq<Item>, sha: string -> Digest, now: int)
    requires Keyed(docs, sha)
    requires forall x :: x in items ==> x.url != []
    requires forall x, y :: x in items && y in items && x.url != y.url ==> DocumentId(x, sha) != DocumentId(y, sha)
    ensures var after := Stage(docs, FindUnseen(Known(docs, items), items), sha, now);
            FindUnseen(Known(after, items), items) == []
  {
    var staged := FindUnseen(Known(docs, items), items);
    var after := Stage(docs, staged, sha, now);
    BatchStagesFresh(docs, items);
    UrlListMembers(items);
    forall x | x in items ensures x.url in Known(after, items) {
      BatchItemStored(docs, items, staged, sha, now, x);
      assert x.url in UrlList(items);
    }
    FindUnseenNone(Known(after, items), items);
  }

  /** When every url of the batch is seen, nothing is left. */
  lemma {:induction false} FindUnseenNone(seen: set<string>, items: seq<Item>)
    requires forall x :: x in items ==> x.url in seen
    ensures FindUnseen(seen, items) == []
  {
    if items != [] {
      var init := items[..|items| - 1];
      assert forall x :: x in init ==> x in items;
      FindUnseenNone(seen, init);
    }
  }

  /** After the batch, every url of the batch is stored: it was stored already, or its item was written. */
  lemma BatchItemStored(docs: map<string, Record>, items: seq<Item>, staged: seq<Item>,
                        sha: string -> Digest, now: int, x: Item)
    requires Keyed(docs, sha)
    requires x in items && x.url != [] && (x in staged || x.url in UrlsIn(docs))
    requires forall y :: y in staged ==> y in items
    requires forall x, y :: x in items && y in items && x.url != y.url ==> DocumentId(x, sha) != DocumentId(y, sha)
    ensures x.url in UrlsIn(Stage(docs, staged, sha, now))
  {
    var id := DocumentId(x, sha);
    if x !in staged {
      var j :| j in docs && docs[j].url == x.url;
      assert Filed(j, docs[j], sha);
    }
    StageUrlAt(docs, staged, sha, now, id, x.url);
  }

  /**
    The record under `id` after the writes has url `u`, when it had it
    before or an item with that url was written there, and no item with
    another url was written there.
   */
  lemma {:induction false} StageUrlAt(docs: map<string, Record>, xs: seq<Item>, sha: string -> Digest, now: int,
                                      id: string, u: string)
    requires (id in docs && docs[id].url == u) || exists x :: x in xs && DocumentId(x, sha) == id && x.url == u
    requires forall y :: y in xs && DocumentId(y, sha) == id ==> y.url == u
    ensures id in Stage(docs, xs, sha, now) && Stage(docs, xs, sha, now)[id].url == u
  {
    if xs != [] {
      var init, last := xs[..|xs| - 1], xs[|xs| - 1];
      assert xs == init + [last];
      if DocumentId(last, sha) != id {
        if !(id in docs && docs[id].url == u) {
          var x :| x in xs && DocumentId(x, sha) == id && x.url == u;
          assert x in init;
        }
        StageUrlAt(docs, init, sha, now, id, u);
      }
    }
  }

  /** A stored url gains no second record: the item is refused. A new url gets exactly one record. */
  lemma PutOnce(docs: map<string, Record>, x: Item, sha: string -> Digest, now: int)
    requires Keyed(docs, sha) && x.url != [] && x.url !in UrlsIn(docs)
    ensures var after := Put(docs, x, sha, now);
            forall id :: id in after && after[id].url == x.url <==> id == DocumentId(x, sha)
  {
    var after := Put(docs, x, sha, now);
    forall id | id in after && id != DocumentId(x, sha) ensures after[id].url != x.url {
      assert after[id] == docs[id];
      assert docs[id].url in UrlsIn(docs);
    }
  }

  /** Removing the record of a non-empty url from a keyed store leaves no record with that url. */
  lemma RemoveLeavesNone(docs: map<string, Record>, sha: string -> Digest, url: string, id: string)
    requires Keyed(docs, sha) && url != []
    requires id in docs && docs[id].url == url
    ensures Keyed(docs - {id}, sha)
    ensures url !in UrlsIn(docs - {id})
  {
    OneRecordPerUrl(docs, sha, id);
  }

  /** `get_news_by_date`: the stored items of that date, by document id. */
  function ByDate(docs: map<string, Record>, date: string, netloc: string -> string): (r: map<string, Item>)
    ensures forall id :: id in r <==> id in docs && docs[id].date == Some(date)
  {
    map id | id in docs && docs[id].date == Some(date) :: FromRecord(docs[id], netloc)
  }

  /** `get_news_by_domain`: the stored items of that domain, by document id. */
  function ByDomain(docs: map<string, Record>, domain: string, netloc: string -> string): (r: map<string, Item>)
    ensures forall id :: id in r <==> id in docs && docs[id].domain == Some(domain)
  {
    map id | id in docs && docs[id].domain == Some(domain) :: FromRecord(docs[id], netloc)
  }

  /** An item added under its date is found again by that date, unchanged. */
  lemma PutThenByDate(docs: map<string, Record>, x: Item, sha: string -> Digest, now: int, netloc: string -> string)
    requires Settled(x, netloc) && x.date.Some?
    ensures var found := ByDate(Put(docs, x, sha, now), x.date.value, netloc);
            DocumentId(x, sha) in found && found[DocumentId(x, sha)] == x
  {
    RecordRoundTrip(x, now, netloc);
  }

  /** An item added with a domain is found again by that domain, unchanged. */
  lemma PutThenByDomain(docs: map<string, Record>, x: Item, sha: string -> Digest, now: int, netloc: string -> string)
    requires Settled(x, netloc) && x.domain.Some?
    ensures var found := ByDomain(Put(docs, x, sha, now), x.domain.value, netloc);
            DocumentId(x, sha) in found && found[DocumentId(x, sha)] == x
  {
    RecordRoundTrip(x, now, netloc);
  }

  /** The staging loop: items with a url found are skipped, the others written to the batch. */
  method StageWrites(docs: map<string, Record>, items: seq<Item>, existing: set<string>,
                     sha: string -> Digest, now: int)
    returns (staged: map<string, Record>, added: nat, skipped: nat)
    ensures added + skipped == |items|
    ensures added == |FindUnseen(existing, items)|
    ensures staged == Stage(docs, FindUnseen(existing, items), sha, now)
  {
    staged := docs;
    added, skipped := 0, 0;
    ghost var written: seq<Item> := [];
    for k := 0 to |items|
      invariant written == FindUnseen(existing, items[..k])
      invariant added + skipped == k
      invariant added == |written|
      invariant staged == Stage(docs, written, sha, now)
    {
      written, staged, added, skipped := StageNext(docs, items, existing, sha, now, k, written, staged, added, skipped);
    }
    assert items[..|items|] == items;
  }

  /** One pass of the staging loop, over `items[k]`. */
  method StageNext(docs: map<string, Record>, items: seq<Item>, existing: set<string>,
                   sha: string -> Digest, now: int, k: nat,
                   ghost written: seq<Item>, staged: map<string, Record>, added: nat, skipped: nat)
    returns (ghost written': seq<Item>, staged': map<string, Record>, added': nat, skipped': nat)
    requires k < |items|
    requires written == FindUnseen(existing, items[..k]) && staged == Stage(docs, written, sha, now)
    ensures written' == FindUnseen(existing, items[..k + 1]) && staged' == Stage(docs, written', sha, now)
    ensures items[k].url in existing ==> added' == added && skipped' == skipped + 1 && written' == written
    ensures items[k].url !in existing ==> added' == added + 1 && skipped' == skipped && written' == written + [items[k]]
  {
    var x := items[k];
    FindUnseenSnoc(existing, items, k);
    if x.url in existing {
      written', staged', added', skipped' := written, staged, added, skipped + 1;
    } else {
      StageSnoc(docs, written, x, sha, now);
      written', staged', added', skipped' := written + [x], Put(staged, x, sha, now), added + 1, skipped;
    }
  }

  /** `item.date or "Misc"`: the section an item is listed under. */
  function DateLabel(x: Item): string {
    if x.date.Some? && x.date.value != [] then x.date.value else "Misc"
  }

  /** The items of `all` listed under `d`, in order. */
  function WithLabel(all: seq<Item>, d: string): seq<Item> {
    if all == [] then []
    else
      var last := all[|all| - 1];
      WithLabel(all[..|all| - 1], d) + (if DateLabel(last) == d then [last] else [])
  }

  lemma {:induction false} WithLabelMembers(all: seq<Item>, d: string)
    ensures forall x :: x in WithLabel(all, d) <==> x in all && DateLabel(x) == d
  {
    if all != [] {
      var init := all[..|all| - 1];
      WithLabelMembers(init, d);
      assert all == init + [all[|all| - 1]];
    }
  }

  /** `news_by_date` as the grouping loop fills it: a label first met opens its list, last in order. */
  function Group(all: seq<Item>): (g: Sections<Item>)
  {
    if all == [] then NoSections()
    else
      var g := Group(all[..|all| - 1]);
      var last := all[|all| - 1];
      var d := DateLabel(last);
      Sections(if d in g.items then g.keys else g.keys + [d],
               g.items[d := (if d in g.items then g.items[d] else []) + [last]])
  }

  /** The grouping is a well-formed dictionary: each label once among the keys, and every key mapped. */
  lemma {:induction false} GroupValid(all: seq<Item>)
    ensures Group(all).Valid()
  {
    if all != [] {
      GroupValid(all[..|all| - 1]);
    }
  }

  /** One turn of the grouping: the last item's label gets the item appended, opened first if new. */
  lemma GroupSnoc(all: seq<Item>)
    requires all != []
    ensures var g0, last := Group(all[..|all| - 1]), all[|all| - 1];
            var d := DateLabel(last);
            Group(all).items == g0.items[d := (if d in g0.items then g0.items[d] else []) + [last]]
  {
    var g0, last := Group(all[..|all| - 1]), all[|all| - 1];
    var d := DateLabel(last);
    var v := (if d in g0.items then g0.items[d] else []) + [last];
    assert Group(all) == Sections(if d in g0.items then g0.keys else g0.keys + [d], g0.items[d := v]);
  }

  lemma GroupPrefix(all: seq<Item>, i: nat)
    requires i < |all|
    ensures var g0, d := Group(all[..i]), DateLabel(all[i]);
            Group(all[..i + 1]) == Sections(if d in g0.items then g0.keys else g0.keys + [d],
                                            g0.items[d := (if d in g0.items then g0.items[d] else []) + [all[i]]])
  {
    assert all[..i + 1][..i] == all[..i];
  }

  /** The labels of a list of items. */
  function Labels(all: seq<Item>): set<string> {
    set x | x in all :: DateLabel(x)
  }

  lemma LabelsSnoc(all: seq<Item>)
    requires all != []
    ensures Labels(all) == Labels(all[..|all| - 1]) + {DateLabel(all[|all| - 1])}
  {
    var init, last := all[..|all| - 1], all[|all| - 1];
    assert all == init + [last];
    assert forall x :: x in all <==> x in init || x == last;
  }

  /** The labels of the grouping are exactly the labels of the items. */
  lemma {:induction false} GroupLabels(all: seq<Item>)
    ensures Group(all).items.Keys == Labels(all)
  {
    if all != [] {
      GroupLabels(all[..|all| - 1]);
      GroupSnoc(all);
      LabelsSnoc(all);
    }
  }

  lemma WithLabelSnoc(all: seq<Item>, d: string)
    requires all != []
    ensures WithLabel(all, d) == WithLabel(all[..|all| - 1], d) + (if DateLabel(all[|all| - 1]) == d then [all[|all| - 1]] else [])
  {
  }

  /** A label no item carries lists nothing. */
  lemma {:induction false} WithLabelAbsent(all: seq<Item>, d: string)
    requires d !in Labels(all)
    ensures WithLabel(all, d) == []
  {
    if all != [] {
      LabelsSnoc(all);
      WithLabelAbsent(all[..|all| - 1], d);
    }
  }

  /**
    The grouping files every item under its label and nothing else: each
    label holds, in order, exactly the items with that label, so no list is
    empty.
   */
  lemma {:induction false} GroupIsFilter(all: seq<Item>)
    ensures forall d :: d in Group(all).items ==> Group(all).items[d] == WithLabel(all, d)
    ensures forall d :: d in Group(all).items ==> Group(all).items[d] != []
  {
    if all != [] {
      var init, last := all[..|all| - 1], all[|all| - 1];
      GroupIsFilter(init);
      GroupLabels(init);
      GroupSnoc(all);
      var g, g0 := Group(all), Group(init);
      var d0 := DateLabel(last);
      forall d | d in g.items ensures g.items[d] == WithLabel(all, d) && g.items[d] != [] {
        WithLabelSnoc(all, d);
        if d == d0 && d !in g0.items {
          WithLabelAbsent(init, d);
        }
      }
    }
  }

  /** Items without a date, or with an empty one, are listed under `Misc`. */
  lemma UndatedUnderMisc(all: seq<Item>, x: Item)
    requires x in all && (x.date.None? || x.date.value == [])
    ensures "Misc" in Group(all).items && x in Group(all).items["Misc"]
  {
    GroupLabels(all);
    GroupIsFilter(all);
    WithLabelMembers(all, "Misc");
  }

  /** `sorted(news_by_date.keys(), key=parse_date_for_sorting, reverse=True)`. */
  function SortedDates(g: Sections<Item>): seq<string> {
    SortDesc(g.keys, ParseDateForSorting)
  }

  /** The labels are listed most recent first, each once. */
  lemma SortedDatesOrder(all: seq<Item>)
    ensures var ds := SortedDates(Group(all));
            && Descending(ds, ParseDateForSorting)
            && multiset(ds) == multiset(Group(all).keys)
            && (forall d :: d in ds <==> d in Labels(all))
  {
    SortDescSorted(Group(all).keys, ParseDateForSorting);
    GroupValid(all);
    GroupLabels(all);
    var ds := SortedDates(Group(all));
    forall d ensures d in ds <==> d in Labels(all) {
      assert d in ds <==> d in multiset(ds);
      assert d in Group(all).keys <==> d in multiset(Group(all).keys);
    }
  }

  /**
    `Misc` reads as no date, so it sorts before every dated section: the
    undated items are listed first.
   */
  lemma MiscListedFirst(all: seq<Item>, i: int, j: int)
    requires var ds := SortedDates(Group(all)); 0 <= i < j < |ds| && ds[j] == "Misc"
    ensures ParseDateForSorting(SortedDates(Group(all))[i]) == Sentinel
  {
    MiscIsSentinel();
    UnparseableFirst(Group(all).keys, i, j);
  }

  /** `f"{item!s}\n"`: an item's bullet line with its line break. */
  function ItemLine(x: Item): string {
    Render(x) + "\n"
  }

  /** The bullet lines of a section. */
  function ItemLines(xs: seq<Item>): string {
    if xs == [] then "" else ItemLines(xs[..|xs| - 1]) + ItemLine(xs[|xs| - 1])
  }

  /** `f"## {date}\n"`. */
  function HeadingText(d: string): string {
    "## " + d + "\n"
  }

  /** A section: its heading line, its bullet lines and a blank line. */
  function SectionText(d: string, xs: seq<Item>): string {
    HeadingText(d) + ItemLines(xs) + "\n"
  }

  /** What label `d` writes: its section, or nothing when it has no items. */
  function SectionOf(g: Sections<Item>, d: string): string {
    if d in g.items && g.items[d] != [] then SectionText(d, g.items[d]) else ""
  }

  /** The sections named, in that order. */
  function SectionsText(g: Sections<Item>, names: seq<string>): string {
    if names == [] then "" else SectionsText(g, names[..|names| - 1]) + SectionOf(g, names[|names| - 1])
  }

  lemma SectionsTextSnoc(g: Sections<Item>, names: seq<string>, k: nat)
    requires k < |names|
    ensures SectionsText(g, names[..k + 1]) == SectionsText(g, names[..k]) + SectionOf(g, names[k])
  {
    assert names[..k + 1][..k] == names[..k];
  }

  /** The markdown the stored items are shown as. */
  function GroupedMarkdown(all: seq<Item>): string {
    var g := Group(all);
    "# AI news\n\n" + SectionsText(g, SortedDates(g))
  }

  /** The grouping loop: each item appended to the list of its label, a new label opening one. */
  method GroupByDate(all: seq<Item>) returns (newsByDate: Sections<Item>)
    ensures newsByDate == Group(all)
  {
    newsByDate := NoSections();
    for i := 0 to |all|
      invariant newsByDate == Group(all[..i])
    {
      GroupPrefix(all, i);
      ghost var g0 := newsByDate;
      var item := all[i];
      var date := if item.date.Some? && item.date.value != [] then item.date.value else "Misc";
      assert date == DateLabel(item);
      ghost var listed := if date in g0.items then g0.items[date] else [];
      if date !in newsByDate.items {
        newsByDate := newsByDate.Reset(date);
        UpdateTwice(g0.items, date, [], listed + [item]);
      }
      assert newsByDate.items[date] == listed;
      newsByDate := newsByDate.Extend(date, [item]);
    }
    assert all[..|all|] == all;
  }

  /** The bullet lines of one section, appended one by one. */
  method AppendItemLines(markdown: string, xs: seq<Item>) returns (out: string)
    ensures out == markdown + ItemLines(xs)
  {
    out := markdown;
    for j := 0 to |xs|
      invariant out == markdown + ItemLines(xs[..j])
    {
      assert xs[..j + 1][..j] == xs[..j];
      ConcatAssoc(markdown, ItemLines(xs[..j]), ItemLine(xs[j]));
      out := out + ItemLine(xs[j]);
    }
    assert xs[..|xs|] == xs;
  }

  /** One turn of the render loop: a non-empty section's heading, bullet lines and blank line. */
  method AppendSection(markdown: string, g: Sections<Item>, date: string) returns (out: string)
    ensures out == markdown + SectionOf(g, date)
  {
    out := markdown;
    if date in g.items && g.items[date] != [] {
      var xs := g.items[date];
      out := out + HeadingText(date);
      out := AppendItemLines(out, xs);
      out := out + "\n";
      ConcatAssoc(markdown, HeadingText(date), ItemLines(xs));
      ConcatAssoc(markdown, HeadingText(date) + ItemLines(xs), "\n");
    } else {
      assert markdown + "" == markdown;
    }
  }

  /**
    The group-and-render block of `get_news_from_firestore_tool`: the
    stored items grouped by date and written as markdown, most recent
    section first.
   */
  method GroupAndRender(all: seq<Item>) returns (markdown: string)
    ensures markdown == GroupedMarkdown(all)
  {
    var newsByDate := GroupByDate(all);
    markdown := "# AI news\n\n";
    var sortedDates := SortDesc(newsByDate.keys, ParseDateForSorting);
    for k := 0 to |sortedDates|
      invariant markdown == "# AI news\n\n" + SectionsText(newsByDate, sortedDates[..k])
    {
      SectionsTextSnoc(newsByDate, sortedDates, k);
      ConcatAssoc("# AI news\n\n", SectionsText(newsByDate, sortedDates[..k]), SectionOf(newsByDate, sortedDates[k]));
      markdown := AppendSection(markdown, newsByDate, sortedDates[k]);
    }
    assert sortedDates[..|sortedDates|] == sortedDates;
  }

  /**
    `FirestoreNewsManager` over an in-memory collection. A `fault` argument
    stands for an exception raised by the store, which every operation
    catches.
   */
  class NewsStore {
    var docs: map<string, Record>
    const sha: string -> Digest
    const netloc: string -> string

    predicate Valid()
      reads this
    {
      Keyed(docs, sha)
    }

    constructor(sha: string -> Digest, netloc: string -> string)
      ensures Valid() && docs == map[]
      ensures this.sha == sha && this.netloc == netloc
    {
      docs := map[];
      this.sha := sha;
      this.netloc := netloc;
    }

    /** `add_news_item`: refused when a record has the item's url, else written under its id. */
    method AddNewsItem(x: Item, now: int, fault: bool) returns (added: bool)
      requires Valid()
      modifies this
      ensures Valid()
      ensures added <==> !fault && x.url !in UrlsIn(old(docs))
      ensures added ==> docs == Put(old(docs), x, sha, now)
      ensures !added ==> docs == old(docs)
    {
      if fault {
        return false;
      }
      var existing := set id | id in docs && docs[id].url == x.url;
      NoneMatching(docs, x.url);
      if existing != {} {
        return false;
      }
      docs := Put(docs, x, sha, now);
      return true;
    }

    /**
      `add_news_items_batch`: the urls are looked up in chunks of 30, and
      every item whose url is not stored is written in one batch, committed
      only when there is something to write.
     */
    method AddNewsItemsBatch(items: seq<Item>, now: int, fault: bool) returns (added: nat, skipped: nat)
      requires Valid()
      modifies this
      ensures Valid()
      ensures added + skipped == |items|
      ensures fault || UrlList(items) == [] ==> added == 0 && docs == old(docs)
      ensures !fault && UrlList(items) != [] ==>
                var staged := FindUnseen(Known(old(docs), items), items);
                added == |staged| && docs == Stage(old(docs), staged, sha, now)
    {
      if items == [] {
        return 0, 0;
      }
      var urls := UrlList(items);
      if urls == [] || fault {
        return 0, |items|;
      }
      var existing := LookUpUrls(urls);
      var staged;
      staged, added, skipped := StageWrites(docs, items, existing, sha, now);
      if added > 0 {
        docs := staged;
      }
    }

    /** The lookup loop: one query `in` per chunk of 30 urls, the urls found collected in a set. */
    method LookUpUrls(urls: seq<string>) returns (existing: set<string>)
      ensures existing == Found(docs, urls)
    {
      existing := {};
      var chunks := Chunks(urls, ChunkSize);
      for k := 0 to |chunks|
        invariant existing == Found(docs, Concat(chunks[..k]))
      {
        var found := WhereUrlIn(docs, chunks[k]);
        WhereUrlInFound(docs, chunks[k]);
        assert chunks[..k + 1][..k] == chunks[..k];
        FoundAppend(docs, Concat(chunks[..k]), chunks[k]);
        existing := existing + found;
      }
      assert chunks[..|chunks|] == chunks;
      ChunksConcat(urls, ChunkSize);
    }

    /** `delete_news_item`: removes one record with that url, if there is one. */
    method DeleteNewsItem(url: string, fault: bool) returns (deleted: bool)
      requires Valid()
      modifies this
      ensures Valid()
      ensures deleted <==> !fault && url in UrlsIn(old(docs))
      ensures deleted ==> exists id :: id in old(docs) && old(docs)[id].url == url && docs == old(docs) - {id}
      ensures !deleted ==> docs == old(docs)
    {
      if fault {
        return false;
      }
      var existing := set id | id in docs && docs[id].url == url;
      NoneMatching(docs, url);
      if existing == {} {
        return false;
      }
      var id :| id in existing;
      docs := docs - {id};
      return true;
    }

    /** `get_news_by_date`. */
    method GetNewsByDate(date: string) returns (found: map<string, Item>)
      ensures found == ByDate(docs, date, netloc)
    {
      found := ByDate(docs, date, netloc);
    }

    /** `get_news_by_domain`. */
    method GetNewsByDomain(domain: string) returns (found: map<string, Item>)
      ensures found == ByDomain(docs, domain, netloc)
    {
      found := ByDomain(docs, domain, netloc);
    }
  }
}
