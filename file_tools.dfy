/**
  The file-backed news archive (`app/tools/file_tools.py`): news items are
  identified by their text, lower-cased and stripped, and
  `merge_news_content` adds to an existing archive only the items it has not
  seen, then writes the sections back most recent first with the `Misc`
  section last.
 */
module FileTools {
  import opened Text
  import opened Markdown
  import opened Dates

  /** `NewsItem(text, url)`; the constructor strips both fields. */
  datatype NewsItem = NewsItem(text: string, url: string)

  function MakeItem(text: string, url: string): (r: NewsItem)
    ensures Trimmed(r.text) && Trimmed(r.url)
  {
    NewsItem(Strip(text), Strip(url))
  }

  /** The constructor keeps exactly the stripped text and url: nothing else is dropped or added. */
  lemma MakeItemStrips(text: string, url: string)
    ensures MakeItem(text, url).text == Strip(text) && MakeItem(text, url).url == Strip(url)
  {
  }

  /** Fields that are already stripped are stored as given. */
  lemma MakeItemTrimmed(text: string, url: string)
    requires Trimmed(text) && Trimmed(url)
    ensures MakeItem(text, url) == NewsItem(text, url)
  {
    StripTrimmed(text);
    StripTrimmed(url);
  }

  /** What `__eq__` and `__hash__` look at: the text, lower-cased and stripped. The url plays no part. */
  function Key(x: NewsItem): string {
    Strip(Lower(x.text))
  }

  predicate SameItem(a: NewsItem, b: NewsItem) {
    Key(a) == Key(b)
  }

  lemma LowerKeepsSpaces(s: string)
    ensures forall i :: 0 <= i < |s| ==> (IsSpace(Lower(s)[i]) <==> IsSpace(s[i]))
  {
  }

  /**
    Two items built by the constructor are the same item exactly when their
    texts agree up to letter case, whatever their urls.
   */
  lemma SameItemIffTextsMatch(t1: string, u1: string, t2: string, u2: string)
    ensures SameItem(MakeItem(t1, u1), MakeItem(t2, u2)) <==> Lower(Strip(t1)) == Lower(Strip(t2))
  {
    var a, b := Strip(t1), Strip(t2);
    LowerKeepsSpaces(a);
    LowerKeepsSpaces(b);
    assert Trimmed(Lower(a));
    assert Trimmed(Lower(b));
    StripTrimmed(Lower(a));
    StripTrimmed(Lower(b));
  }

  /** `str(item)`: `* text - [url](url)` when there is a url, else `* text`. */
  function Render(x: NewsItem): string {
    if x.url != [] then "* " + x.text + LinkSuffix(Link(x.url, x.url)) else "* " + x.text
  }

  /** The item a parsed bullet becomes: the link's url is kept, its domain dropped. */
  function FromBullet(b: Bullet): NewsItem {
    match b.link
    case Some(l) => MakeItem(b.title, l.url)
    case None => MakeItem(b.title, "")
  }

  /** The parser's item constructor: in this tool an item does not record its section. */
  function ItemUnder(b: Bullet, name: string): NewsItem {
    FromBullet(b)
  }

  /** An item whose rendering the parser reads back unchanged. */
  predicate WellFormed(x: NewsItem) {
    PlainText(x.text) && Trimmed(x.url) && ']' !in x.url && ')' !in x.url
  }

  /**
    Round trip: a well-formed item, rendered as a bullet line and parsed
    again, is the same item, url included.
   */
  lemma RenderParse(x: NewsItem)
    requires WellFormed(x)
    ensures Classify(Render(x)).Item? && FromBullet(Classify(Render(x)).bullet) == x
  {
    if x.url != [] {
      var t := x.text + LinkSuffix(Link(x.url, x.url));
      assert Render(x) == "* " + t;
      assert t[0] == x.text[0] && t[|t| - 1] == ')';
      BulletLine(t);
      BulletTextWithLink(x.text, Link(x.url, x.url));
    } else {
      BulletLine(x.text);
      BulletTextPlain(x.text);
    }
    MakeItemTrimmed(x.text, x.url);
  }

  lemma LinkSuffixDomain(d1: string, d2: string, u: string)
    requires LinkSuffix(Link(d1, u)) == LinkSuffix(Link(d2, u))
    ensures d1 == d2
  {
    var s1, s2 := LinkSuffix(Link(d1, u)), LinkSuffix(Link(d2, u));
    assert |d1| == |d2|;
    assert s1 == " - [" + d1 + "](" + u + ")";
    assert s2 == " - [" + d2 + "](" + u + ")";
    assert s1[4..4 + |d1|] == d1;
    assert s2[4..4 + |d2|] == d2;
  }

  /**
    The domain is lost: a line `* text - [domain](url)` is read as the item
    (text, url), which renders back to the same line only when the domain
    was the url itself.
   */
  lemma DomainLostOnRender(t: string, d: string, u: string)
    requires PlainText(t) && Trimmed(u)
    requires d != [] && ']' !in d && u != [] && ')' !in u
    ensures var line := "* " + t + LinkSuffix(Link(d, u));
            && Classify(line).Item?
            && FromBullet(Classify(line).bullet) == NewsItem(t, u)
            && (Render(NewsItem(t, u)) == line <==> d == u)
  {
    var s := t + LinkSuffix(Link(d, u));
    ConcatAssoc("* ", t, LinkSuffix(Link(d, u)));
    assert s[0] == t[0] && s[|s| - 1] == ')';
    BulletLine(s);
    BulletTextWithLink(t, Link(d, u));
    MakeItemTrimmed(t, u);
    RenderLinkIff(t, d, u);
  }

  /** An item with a url renders with the url as its link text: the line matches only a domain equal to the url. */
  lemma RenderLinkIff(t: string, d: string, u: string)
    requires u != []
    ensures Render(NewsItem(t, u)) == "* " + t + LinkSuffix(Link(d, u)) <==> d == u
  {
    var a := "* " + t;
    if Render(NewsItem(t, u)) == a + LinkSuffix(Link(d, u)) {
      assert (a + LinkSuffix(Link(u, u)))[|a|..] == LinkSuffix(Link(u, u));
      assert (a + LinkSuffix(Link(d, u)))[|a|..] == LinkSuffix(Link(d, u));
      LinkSuffixDomain(u, d, u);
    }
  }

  /** The sections of a document, as this tool's `parse_markdown_content` builds them. */
  function Parsed(content: string): (r: Sections<NewsItem>)
    ensures r.Valid()
  {
    ParseLinesByKinds(Split(content, '\n'), ItemUnder);
    ParseValid(Kinds(Split(content, '\n')), ItemUnder);
    ParseLines(Split(content, '\n'), ItemUnder).sections
  }

  /** `parse_markdown_content`. */
  method ParseMarkdownContent(content: string) returns (sections: Sections<NewsItem>)
    ensures sections.Valid()
    ensures sections == Parsed(content)
  {
    sections := ParseMarkdownSections(content, ItemUnder);
  }

  /** `extract_news_items_from_text`. */
  method ExtractNewsItems(text: string) returns (items: seq<NewsItem>)
    ensures items == BulletItems(Split(text, '\n'), FromBullet)
  {
    items := ExtractBulletItems(text, FromBullet);
  }

  /** The keys of a list of items: what a Python set of those items can tell apart. */
  function KeySet(items: seq<NewsItem>): set<string> {
    set x | x in items :: Key(x)
  }

  /** `find_unseen_news`: the items, in order, whose key is not among those seen. */
  function FindUnseen(seen: set<string>, items: seq<NewsItem>): (r: seq<NewsItem>)
    ensures forall x :: x in r <==> x in items && Key(x) !in seen
    ensures |r| <= |items|
  {
    if items == [] then []
    else (if Key(items[0]) in seen then [] else [items[0]]) + FindUnseen(seen, items[1..])
  }

  /** A single item is kept exactly when its key is unseen. */
  lemma FindUnseenOne(seen: set<string>, x: NewsItem)
    ensures FindUnseen(seen, [x]) == if Key(x) in seen then [] else [x]
  {
    assert [x][1..] == [];
  }

  /**
    The filter goes item by item: filtering a concatenation is concatenating
    the filtered parts, so order and repeats within a list are kept.
   */
  lemma {:induction false} FindUnseenAppend(seen: set<string>, a: seq<NewsItem>, b: seq<NewsItem>)
    ensures FindUnseen(seen, a + b) == FindUnseen(seen, a) + FindUnseen(seen, b)
  {
    if a == [] {
      assert a + b == b;
    } else {
      var head := if Key(a[0]) in seen then [] else [a[0]];
      assert (a + b)[0] == a[0];
      assert (a + b)[1..] == a[1..] + b;
      assert FindUnseen(seen, a + b) == head + FindUnseen(seen, a[1..] + b);
      FindUnseenAppend(seen, a[1..], b);
      ConcatAssoc(head, FindUnseen(seen, a[1..]), FindUnseen(seen, b));
    }
  }

  /** Nothing is dropped for repeating an earlier item of the same list: only the seen keys count. */
  lemma {:induction false} FindUnseenKeepsAll(seen: set<string>, items: seq<NewsItem>)
    requires forall x :: x in items ==> Key(x) !in seen
    ensures FindUnseen(seen, items) == items
  {
    if items != [] {
      assert items[0] in items;
      FindUnseenKeepsAll(seen, items[1..]);
    }
  }

  /** Every key of `items` is either seen already or the key of an unseen item. */
  lemma FindUnseenKeys(seen: set<string>, items: seq<NewsItem>)
    ensures seen + KeySet(FindUnseen(seen, items)) == seen + KeySet(items)
  {
    var u := FindUnseen(seen, items);
    forall k | k in KeySet(items) && k !in seen ensures k in KeySet(u) {
      var x :| x in items && Key(x) == k;
      assert x in u;
    }
  }

  /** The keys of every item listed under one of `names`: the set of items `merge_news_content` has seen. */
  function SeenIn(names: seq<string>, items: map<string, seq<NewsItem>>): set<string>
    requires forall k :: k in names ==> k in items
  {
    if names == [] then {}
    else SeenIn(names[..|names| - 1], items) + KeySet(items[names[|names| - 1]])
  }

  /** A key is seen exactly when some item listed under one of `names` has it. */
  lemma SeenInKeys(names: seq<string>, items: map<string, seq<NewsItem>>, k: string)
    requires forall k :: k in names ==> k in items
    ensures k in SeenIn(names, items) <==> exists i :: 0 <= i < |names| && k in KeySet(items[names[i]])
  {
    if k in SeenIn(names, items) {
      SeenInWitness(names, items, k);
    }
    if i :| 0 <= i < |names| && k in KeySet(items[names[i]]) {
      SeenInFrom(names, items, k, i);
    }
  }

  lemma {:induction false} SeenInWitness(names: seq<string>, items: map<string, seq<NewsItem>>, k: string)
    requires forall k :: k in names ==> k in items
    requires k in SeenIn(names, items)
    ensures exists i :: 0 <= i < |names| && k in KeySet(items[names[i]])
  {
    var p := names[..|names| - 1];
    if k in SeenIn(p, items) {
      SeenInWitness(p, items, k);
      var i :| 0 <= i < |p| && k in KeySet(items[p[i]]);
      assert names[i] == p[i];
    } else {
      assert k in KeySet(items[names[|names| - 1]]);
    }
  }

  lemma {:induction false} SeenInFrom(names: seq<string>, items: map<string, seq<NewsItem>>, k: string, i: nat)
    requires forall k :: k in names ==> k in items
    requires i < |names| && k in KeySet(items[names[i]])
    ensures k in SeenIn(names, items)
  {
    var p := names[..|names| - 1];
    if i < |p| {
      assert names[i] == p[i];
      SeenInFrom(p, items, k, i);
    }
  }

  lemma SeenInPrefix(names: seq<string>, items: map<string, seq<NewsItem>>, i: nat)
    requires forall k :: k in names ==> k in items
    requires i < |names|
    ensures SeenIn(names[..i + 1], items) == SeenIn(names[..i], items) + KeySet(items[names[i]])
  {
    assert names[..i + 1][..i] == names[..i];
  }

  /** The loop state of the merge: the sections built so far and the keys seen so far. */
  datatype Merge = Merge(merged: Sections<NewsItem>, seen: set<string>)

  /**
    One turn of the merge loop: the section is created empty if it is new,
    and only the incoming items not seen yet are appended, which also makes
    them seen.
   */
  function MergeStep(st: Merge, name: string, incoming: seq<NewsItem>): Merge {
    var m := if name in st.merged.items then st.merged else st.merged.Reset(name);
    var unseen := FindUnseen(st.seen, incoming);
    if unseen != [] then Merge(m.Extend(name, unseen), st.seen + KeySet(unseen)) else Merge(m, st.seen)
  }

  /** The merge loop run over the new sections `names`, in order. */
  function MergeFrom(st: Merge, incoming: Sections<NewsItem>, names: seq<string>): Merge
    requires forall k :: k in names ==> k in incoming.items
  {
    if names == [] then st
    else
      var last := names[|names| - 1];
      MergeStep(MergeFrom(st, incoming, names[..|names| - 1]), last, incoming.items[last])
  }

  lemma MergeFromSnoc(st: Merge, incoming: Sections<NewsItem>, i: nat)
    requires incoming.Valid() && i < |incoming.keys|
    ensures forall k :: k in incoming.keys[..i + 1] ==> k in incoming.items
    ensures var name := incoming.keys[i];
            MergeFrom(st, incoming, incoming.keys[..i + 1])
              == MergeStep(MergeFrom(st, incoming, incoming.keys[..i]), name, incoming.items[name])
  {
    assert incoming.keys[..i + 1][..i] == incoming.keys[..i];
  }

  /** What section `name` holds: nothing if there is no such section. */
  function ItemsOf(s: Sections<NewsItem>, name: string): seq<NewsItem> {
    if name in s.items then s.items[name] else []
  }

  /** The names among `names` that are not sections of `existing`, in order. */
  function NewNames(existing: Sections<NewsItem>, names: seq<string>): seq<string> {
    if names == [] then []
    else
      var last := names[|names| - 1];
      NewNames(existing, names[..|names| - 1]) + (if last in existing.items then [] else [last])
  }

  /** The items the merge appends to the `i`-th new section: those seen neither before the merge nor in an earlier new section. */
  function Added(seen0: set<string>, incoming: Sections<NewsItem>, names: seq<string>, i: nat): seq<NewsItem>
    requires i < |names|
    requires forall k :: k in names ==> k in incoming.items
  {
    FindUnseen(seen0 + SeenIn(names[..i], incoming.items), incoming.items[names[i]])
  }

  predicate Distinct(names: seq<string>) {
    forall i, j :: 0 <= i < j < |names| ==> names[i] != names[j]
  }

  /** The sections after the merge, and where they come from. */
  ghost predicate LaidOut(merged: Sections<NewsItem>, existing: Sections<NewsItem>, names: seq<string>) {
    && merged.keys == existing.keys + NewNames(existing, names)
    && (forall k :: k in merged.items <==> k in existing.items || k in names)
    && (forall k :: k in existing.items && k !in names ==> merged.items[k] == existing.items[k])
  }

  /** What each section named in the new content holds after the merge. */
  ghost predicate Filled(merged: Sections<NewsItem>, existing: Sections<NewsItem>, seen0: set<string>, incoming: Sections<NewsItem>, names: seq<string>)
    requires forall k :: k in names ==> k in incoming.items
  {
    forall i :: 0 <= i < |names| ==> names[i] in merged.items && merged.items[names[i]] == ItemsOf(existing, names[i]) + Added(seen0, incoming, names, i)
  }

  /** The merge loop in closed form. */
  ghost predicate MergedAs(r: Merge, existing: Sections<NewsItem>, seen0: set<string>, incoming: Sections<NewsItem>, names: seq<string>)
    requires forall k :: k in names ==> k in incoming.items
  {
    && r.seen == seen0 + SeenIn(names, incoming.items)
    && LaidOut(r.merged, existing, names)
    && Filled(r.merged, existing, seen0, incoming, names)
  }

  /**
    The merge, section by section: each existing section keeps its items and
    its place, new sections follow in their order, and every section named
    in the new content gets exactly the items not seen before it.
   */
  lemma {:induction false} MergeClosedForm(existing: Sections<NewsItem>, seen0: set<string>, incoming: Sections<NewsItem>, names: seq<string>)
    requires Distinct(names)
    requires forall k :: k in names ==> k in incoming.items
    ensures MergedAs(MergeFrom(Merge(existing, seen0), incoming, names), existing, seen0, incoming, names)
  {
    if names != [] {
      var n := |names| - 1;
      var p, last := names[..n], names[n];
      MergeClosedForm(existing, seen0, incoming, p);
      var prev := MergeFrom(Merge(existing, seen0), incoming, p);
      assert last !in p;
      var r := MergeStep(prev, last, incoming.items[last]);
      var unseen := FindUnseen(prev.seen, incoming.items[last]);
      FindUnseenKeys(prev.seen, incoming.items[last]);
      assert r.seen == seen0 + SeenIn(names, incoming.items);
      StepLaidOut(prev.merged, r.merged, existing, p, last, unseen);
      StepFilled(prev, r.merged, existing, seen0, incoming, names);
    }
  }

  lemma StepLaidOut(prev: Sections<NewsItem>, next: Sections<NewsItem>, existing: Sections<NewsItem>, p: seq<string>, last: string, unseen: seq<NewsItem>)
    requires last !in p
    requires LaidOut(prev, existing, p)
    requires var m := if last in prev.items then prev else prev.Reset(last);
             next == if unseen != [] then m.Extend(last, unseen) else m
    ensures LaidOut(next, existing, p + [last])
    ensures last in next.items && next.items[last] == ItemsOf(existing, last) + unseen
    ensures forall k :: k in prev.items && k != last ==> k in next.items && next.items[k] == prev.items[k]
  {
    var names := p + [last];
    assert names[..|p|] == p;
    assert NewNames(existing, names) == NewNames(existing, p) + (if last in existing.items then [] else [last]);
    assert last in prev.items <==> last in existing.items;
    if unseen == [] {
      assert ItemsOf(existing, last) + unseen == ItemsOf(existing, last);
    }
  }

  lemma StepFilled(prev: Merge, next: Sections<NewsItem>, existing: Sections<NewsItem>, seen0: set<string>, incoming: Sections<NewsItem>, names: seq<string>)
    requires names != []
    requires forall k :: k in names ==> k in incoming.items
    requires names[|names| - 1] !in names[..|names| - 1]
    requires prev.seen == seen0 + SeenIn(names[..|names| - 1], incoming.items)
    requires Filled(prev.merged, existing, seen0, incoming, names[..|names| - 1])
    requires var last := names[|names| - 1];
             && last in next.items
             && next.items[last] == ItemsOf(existing, last) + FindUnseen(prev.seen, incoming.items[last])
    requires forall k :: k in prev.merged.items && k != names[|names| - 1] ==> k in next.items && next.items[k] == prev.merged.items[k]
    ensures Filled(next, existing, seen0, incoming, names)
  {
    var n := |names| - 1;
    var p := names[..n];
    forall i | 0 <= i < |names|
      ensures names[i] in next.items && next.items[names[i]] == ItemsOf(existing, names[i]) + Added(seen0, incoming, names, i)
    {
      if i < n {
        AddedPrefix(seen0, incoming, names, i);
        assert names[i] == p[i];
      } else {
        assert names[..i] == p;
      }
    }
  }

  lemma AddedPrefix(seen0: set<string>, incoming: Sections<NewsItem>, names: seq<string>, i: nat)
    requires i < |names| - 1
    requires forall k :: k in names ==> k in incoming.items
    ensures Added(seen0, incoming, names, i) == Added(seen0, incoming, names[..|names| - 1], i)
  {
    var p := names[..|names| - 1];
    assert names[..i] == p[..i];
    assert names[i] == p[i];
  }

  /** Every key of an existing archive: what `merge_news_content` has seen before it looks at the new content. */
  function ExistingKeys(existing: Sections<NewsItem>): set<string>
    requires existing.Valid()
  {
    SeenIn(existing.keys, existing.items)
  }

  /** The sections of the merged archive. */
  function MergeSections(existing: Sections<NewsItem>, incoming: Sections<NewsItem>): (r: Sections<NewsItem>)
    requires existing.Valid() && incoming.Valid()
  {
    MergeFrom(Merge(existing, ExistingKeys(existing)), incoming, incoming.keys).merged
  }

  /** A section whose name mentions `misc`, in any letter case, is written last. */
  predicate IsMisc(name: string) {
    Lower(name) == "misc" || Contains(Lower(name), "misc")
  }

  /** The names that are not misc sections, in order: the ones sorted by date. */
  function DatedNames(names: seq<string>): seq<string> {
    if names == [] then []
    else
      var last := names[|names| - 1];
      DatedNames(names[..|names| - 1]) + (if IsMisc(last) then [] else [last])
  }

  /** The misc section that is written: the last one, if several names qualify. */
  function MiscName(names: seq<string>): Option<string> {
    if names == [] then None
    else
      var last := names[|names| - 1];
      if IsMisc(last) then Some(last) else MiscName(names[..|names| - 1])
  }

  /** Exactly the names that are not misc sections are sorted by date. */
  lemma {:induction false} DatedNamesMembers(names: seq<string>)
    ensures forall k :: k in DatedNames(names) <==> k in names && !IsMisc(k)
  {
    if names != [] {
      DatedNamesMembers(names[..|names| - 1]);
      assert names == names[..|names| - 1] + [names[|names| - 1]];
    }
  }

  lemma {:induction false} MiscNameIn(names: seq<string>)
    ensures MiscName(names).Some? ==> MiscName(names).value in names && IsMisc(MiscName(names).value)
  {
    if names != [] {
      MiscNameIn(names[..|names| - 1]);
    }
  }

  /**
    The misc section written is the last name that qualifies; there is none
    exactly when no name does. Every other misc section is dropped.
   */
  lemma {:induction false} MiscNameIsLast(names: seq<string>)
    ensures MiscName(names).None? <==> forall k :: k in names ==> !IsMisc(k)
    ensures MiscName(names).Some? ==>
              exists j :: 0 <= j < |names| && names[j] == MiscName(names).value && IsMisc(names[j])
                          && forall i :: j < i < |names| ==> !IsMisc(names[i])
  {
    MiscNameNone(names);
    if MiscName(names).Some? {
      var j := MiscNameIndex(names);
    }
  }

  lemma {:induction false} MiscNameNone(names: seq<string>)
    ensures MiscName(names).None? <==> forall k :: k in names ==> !IsMisc(k)
  {
    if names != [] {
      var p := names[..|names| - 1];
      MiscNameNone(p);
      assert names == p + [names[|names| - 1]];
    }
  }

  /** The position of the misc section written: no later name qualifies. */
  lemma {:induction false} MiscNameIndex(names: seq<string>) returns (j: nat)
    requires MiscName(names).Some?
    ensures j < |names| && names[j] == MiscName(names).value && IsMisc(names[j])
    ensures forall i :: j < i < |names| ==> !IsMisc(names[i])
  {
    var p, last := names[..|names| - 1], names[|names| - 1];
    if IsMisc(last) {
      j := |names| - 1;
    } else {
      j := MiscNameIndex(p);
      assert names[j] == p[j];
      forall i | j < i < |names| ensures !IsMisc(names[i]) {
        if i < |p| {
          assert names[i] == p[i];
        }
      }
    }
  }

  function RenderItems(xs: seq<NewsItem>): (r: seq<string>)
    ensures |r| == |xs|
  {
    if xs == [] then [] else RenderItems(xs[..|xs| - 1]) + [Render(xs[|xs| - 1])]
  }

  /** A section as written: its heading, then one line per item. */
  function Block(m: Sections<NewsItem>, name: string): seq<string> {
    ["## " + name] + RenderItems(ItemsOf(m, name))
  }

  /** The dated sections in the given order, each followed by a blank line; empty sections are left out. */
  function DatedLines(m: Sections<NewsItem>, names: seq<string>): seq<string> {
    if names == [] then []
    else
      var last := names[|names| - 1];
      DatedLines(m, names[..|names| - 1]) + (if ItemsOf(m, last) != [] then Block(m, last) + [""] else [])
  }

  /** The misc section, with no blank line after it, if it has items. */
  function MiscLines(m: Sections<NewsItem>, misc: Option<string>): seq<string> {
    if misc.Some? && ItemsOf(m, misc.value) != [] then Block(m, misc.value) else []
  }

  /** The title is written when the existing archive began with a level-one heading. */
  function TitleLines(existing: string): seq<string> {
    if StartsWith(Strip(existing), "# ") then ["# AI news"] else []
  }

  /** The order sections are written in: most recent first, by the date their name reads as. */
  function SectionOrder(m: Sections<NewsItem>): seq<string> {
    SortDesc(DatedNames(m.keys), ParseDateForSorting)
  }

  /** The sections written out, title excepted. */
  function BodyLines(m: Sections<NewsItem>): seq<string> {
    DatedLines(m, SectionOrder(m)) + MiscLines(m, MiscName(m.keys))
  }

  /** The lines of the merged archive. */
  function OutputLines(existing: string, update: string): seq<string> {
    TitleLines(existing) + BodyLines(MergeSections(Parsed(existing), Parsed(update)))
  }

  /** `merge_news_content`: the new content as it is when the archive is blank, else the merged archive. */
  function MergeNews(existing: string, update: string): string {
    if Strip(existing) == [] then update else Join(OutputLines(existing, update), "\n")
  }

  /** The loop collecting every existing item into the seen set. */
  method CollectSeen(sections: Sections<NewsItem>) returns (seen: set<string>)
    requires sections.Valid()
    ensures seen == ExistingKeys(sections)
  {
    seen := {};
    var i := 0;
    while i < |sections.keys|
      invariant 0 <= i <= |sections.keys|
      invariant seen == SeenIn(sections.keys[..i], sections.items)
    {
      SeenInPrefix(sections.keys, sections.items, i);
      seen := seen + KeySet(sections.items[sections.keys[i]]);
      i := i + 1;
    }
    assert sections.keys[..i] == sections.keys;
  }

  /** One turn of the merge loop, on the archive and the seen set. */
  method MergeSection(merged: Sections<NewsItem>, seen: set<string>, name: string, incoming: seq<NewsItem>)
    returns (merged': Sections<NewsItem>, seen': set<string>)
    requires merged.Valid()
    ensures merged'.Valid()
    ensures Merge(merged', seen') == MergeStep(Merge(merged, seen), name, incoming)
  {
    merged', seen' := merged, seen;
    if name !in merged'.items {
      merged' := merged'.Reset(name);
    }
    var unseen := FindUnseen(seen', incoming);
    if unseen != [] {
      merged' := merged'.Extend(name, unseen);
      seen' := seen' + KeySet(unseen);
    }
  }

  /** The loop adding each new section's unseen items to the archive. */
  method MergeInto(sections: Sections<NewsItem>, incoming: Sections<NewsItem>) returns (merged: Sections<NewsItem>)
    requires sections.Valid() && incoming.Valid()
    ensures merged.Valid()
    ensures merged == MergeSections(sections, incoming)
  {
    var seen := CollectSeen(sections);
    merged := sections;
    ghost var start := Merge(sections, seen);
    var i := 0;
    assert incoming.keys[..0] == [];
    while i < |incoming.keys|
      invariant 0 <= i <= |incoming.keys|
      invariant merged.Valid()
      invariant Merge(merged, seen) == MergeFrom(start, incoming, incoming.keys[..i])
    {
      var name := incoming.keys[i];
      MergeFromSnoc(start, incoming, i);
      merged, seen := MergeSection(merged, seen, name, incoming.items[name]);
      i := i + 1;
    }
    assert incoming.keys[..i] == incoming.keys;
  }

  /** The loop setting the misc section aside from the dated ones. */
  method SplitMisc(names: seq<string>) returns (order: seq<string>, misc: Option<string>)
    ensures order == DatedNames(names) && misc == MiscName(names)
  {
    order, misc := [], None;
    var i := 0;
    while i < |names|
      invariant 0 <= i <= |names|
      invariant order == DatedNames(names[..i]) && misc == MiscName(names[..i])
    {
      var name := names[i];
      assert names[..i + 1][..i] == names[..i];
      if IsMisc(name) {
        misc := Some(name);
      } else {
        order := order + [name];
      }
      i := i + 1;
    }
    assert names[..i] == names;
  }

  /** The loop appending one line per item. */
  method AppendItems(lines: seq<string>, items: seq<NewsItem>) returns (out: seq<string>)
    ensures out == lines + RenderItems(items)
  {
    out := lines;
    var j := 0;
    while j < |items|
      invariant 0 <= j <= |items|
      invariant out == lines + RenderItems(items[..j])
    {
      assert items[..j + 1][..j] == items[..j];
      out := out + [Render(items[j])];
      j := j + 1;
    }
    assert items[..j] == items;
  }

  lemma DatedLinesSnoc(m: Sections<NewsItem>, order: seq<string>, i: nat)
    requires i < |order|
    ensures DatedLines(m, order[..i + 1]) == DatedLines(m, order[..i]) + SectionLines(m, order[i])
  {
    assert order[..i + 1][..i] == order[..i];
  }

  /** The loop writing the dated sections in the given order. */
  method AppendDated(lines: seq<string>, merged: Sections<NewsItem>, order: seq<string>) returns (out: seq<string>)
    requires forall k :: k in order ==> k in merged.items
    ensures out == lines + DatedLines(merged, order)
  {
    out := lines;
    var i := 0;
    while i < |order|
      invariant 0 <= i <= |order|
      invariant out == lines + DatedLines(merged, order[..i])
    {
      DatedLinesSnoc(merged, order, i);
      ghost var prev := DatedLines(merged, order[..i]);
      out := AppendSection(out, merged, order[i]);
      ConcatAssoc(lines, prev, SectionLines(merged, order[i]));
      i := i + 1;
    }
    assert order[..i] == order;
  }

  /** What one dated section adds to the output: its block and a blank line, or nothing when it is empty. */
  function SectionLines(m: Sections<NewsItem>, name: string): seq<string> {
    if ItemsOf(m, name) != [] then Block(m, name) + [""] else []
  }

  /** One pass of the loop over the dated sections. */
  method AppendSection(lines: seq<string>, merged: Sections<NewsItem>, name: string) returns (out: seq<string>)
    requires name in merged.items
    ensures out == lines + SectionLines(merged, name)
  {
    var items := merged.items[name];
    if items != [] {
      out := AppendItems(lines + ["## " + name], items);
      out := out + [""];
      ConcatAssoc(lines, ["## " + name], RenderItems(items));
      ConcatAssoc(lines, ["## " + name] + RenderItems(items), [""]);
    } else {
      out := lines;
      assert out + [] == out;
    }
  }

  /** Every name in the written order is a section of the archive. */
  lemma SectionOrderInKeys(m: Sections<NewsItem>)
    requires m.Valid()
    ensures forall k :: k in SectionOrder(m) ==> k in m.items
  {
    SortDescSorted(DatedNames(m.keys), ParseDateForSorting);
    DatedNamesMembers(m.keys);
    forall k | k in SectionOrder(m)
      ensures k in m.items
    {
      assert k in multiset(SectionOrder(m));
    }
  }

  lemma BodyLinesOf(m: Sections<NewsItem>, order: seq<string>, misc: Option<string>)
    requires order == SectionOrder(m) && misc == MiscName(m.keys)
    ensures BodyLines(m) == DatedLines(m, order) + MiscLines(m, misc)
  {
  }

  /** The sections of the merged archive written out: dated ones most recent first, then the misc one. */
  method AppendSections(lines: seq<string>, merged: Sections<NewsItem>) returns (out: seq<string>)
    requires merged.Valid()
    ensures out == lines + BodyLines(merged)
  {
    var order, misc := SplitMisc(merged.keys);
    order := SortDesc(order, ParseDateForSorting);
    assert order == SectionOrder(merged);
    SectionOrderInKeys(merged);
    out := AppendDated(lines, merged, order);
    ghost var dated := out;
    MiscNameIn(merged.keys);
    if misc.Some? && merged.items[misc.value] != [] {
      var items := merged.items[misc.value];
      out := AppendItems(out + ["## " + misc.value], items);
      ConcatAssoc(dated, ["## " + misc.value], RenderItems(items));
    }
    assert out == dated + MiscLines(merged, misc);
    BodyLinesOf(merged, order, misc);
    ConcatAssoc(lines, DatedLines(merged, order), MiscLines(merged, misc));
  }



  method MergeNewsContent(existing: string, update: string) returns (out: string)
    ensures out == MergeNews(existing, update)
  {
    if Strip(existing) == [] {
      return update;
    }
    var sections := ParseMarkdownContent(existing);
    var incoming := ParseMarkdownContent(update);
    var merged := MergeInto(sections, incoming);
    var lines: seq<string> := [];
    if StartsWith(Strip(existing), "# ") {
      lines := ["# AI news"];
    }
    lines := AppendSections(lines, merged);
    out := Join(lines, "\n");
  }

  /** A seen key is the key of some item of the existing archive, and every such key is seen. */
  lemma ExistingKeysIff(existing: Sections<NewsItem>, k: string)
    requires existing.Valid()
    ensures k in ExistingKeys(existing) <==> exists name :: name in existing.items && k in KeySet(existing.items[name])
  {
    SeenInKeys(existing.keys, existing.items, k);
    if name :| name in existing.items && k in KeySet(existing.items[name]) {
      var i :| 0 <= i < |existing.keys| && existing.keys[i] == name;
    }
  }

  /**
    An item of the `i`-th new section is appended exactly when no item seen
    before it has its key: none in the existing archive and none in an
    earlier new section.
   */
  lemma AddedIff(seen0: set<string>, incoming: Sections<NewsItem>, names: seq<string>, i: nat, x: NewsItem)
    requires i < |names|
    requires forall k :: k in names ==> k in incoming.items
    ensures x in Added(seen0, incoming, names, i) <==>
              && x in incoming.items[names[i]]
              && Key(x) !in seen0
              && forall j :: 0 <= j < i ==> Key(x) !in KeySet(incoming.items[names[j]])
  {
    SeenInKeys(names[..i], incoming.items, Key(x));
    if j :| 0 <= j < i && Key(x) in KeySet(incoming.items[names[j]]) {
      assert names[..i][j] == names[j];
    }
  }

  /**
    The merged archive: existing sections keep their place and their items,
    which the appended items follow; new sections come after them in the
    order of the new content; and what is appended to a section is exactly
    the items of the new content not seen before (in the archive or in an
    earlier new section).
   */
  lemma MergeSectionsShape(existing: Sections<NewsItem>, incoming: Sections<NewsItem>)
    requires existing.Valid() && incoming.Valid()
    ensures var m := MergeSections(existing, incoming);
            && m.keys == existing.keys + NewNames(existing, incoming.keys)
            && (forall k :: k in m.items <==> k in existing.items || k in incoming.items)
            && (forall k :: k in existing.items && k !in incoming.items ==> m.items[k] == existing.items[k])
            && (forall i :: 0 <= i < |incoming.keys| ==>
                  m.items[incoming.keys[i]] == ItemsOf(existing, incoming.keys[i]) + Added(ExistingKeys(existing), incoming, incoming.keys, i))
  {
    MergeClosedForm(existing, ExistingKeys(existing), incoming, incoming.keys);
  }

  /** No item appended by the merge is the same item as one already in the archive. */
  lemma MergeAddsNoDuplicate(existing: Sections<NewsItem>, incoming: Sections<NewsItem>, i: nat, x: NewsItem, name: string, y: NewsItem)
    requires existing.Valid() && incoming.Valid()
    requires i < |incoming.keys| && x in Added(ExistingKeys(existing), incoming, incoming.keys, i)
    requires name in existing.items && y in existing.items[name]
    ensures !SameItem(x, y)
  {
    AddedIff(ExistingKeys(existing), incoming, incoming.keys, i, x);
    ExistingKeysIff(existing, Key(y));
  }

  /** An item is appended under one new section at most: a later section does not repeat it. */
  lemma MergeAddsOnce(existing: Sections<NewsItem>, incoming: Sections<NewsItem>, i: nat, j: nat, x: NewsItem, y: NewsItem)
    requires existing.Valid() && incoming.Valid()
    requires j < i < |incoming.keys|
    requires x in Added(ExistingKeys(existing), incoming, incoming.keys, i)
    requires y in Added(ExistingKeys(existing), incoming, incoming.keys, j)
    ensures !SameItem(x, y)
  {
    AddedIff(ExistingKeys(existing), incoming, incoming.keys, i, x);
    AddedIff(ExistingKeys(existing), incoming, incoming.keys, j, y);
    assert Key(y) in KeySet(incoming.items[incoming.keys[j]]);
  }

  /** Repeats within one incoming section are not removed: two copies of an unseen item are both appended. */
  lemma MergeKeepsRepeats(seen: set<string>, x: NewsItem)
    requires Key(x) !in seen
    ensures FindUnseen(seen, [x, x]) == [x, x]
  {
    FindUnseenKeepsAll(seen, [x, x]);
  }

  /** The sections `names` of `m`, in that order and with their items, as reading an archive back gives them. */
  function Restrict(m: Sections<NewsItem>, names: seq<string>): Sections<NewsItem> {
    Sections(names, map k | k in names :: ItemsOf(m, k))
  }

  /** The names among `names` whose sections have items, in order. */
  function NonEmpty(m: Sections<NewsItem>, names: seq<string>): seq<string> {
    if names == [] then []
    else
      var last := names[|names| - 1];
      NonEmpty(m, names[..|names| - 1]) + (if ItemsOf(m, last) != [] then [last] else [])
  }

  /** The misc section written last, if it has items. */
  function KeptMisc(m: Sections<NewsItem>): seq<string> {
    match MiscName(m.keys)
    case Some(n) => if ItemsOf(m, n) != [] then [n] else []
    case None => []
  }

  /** The sections written to the archive, in the order they are written. */
  function Emitted(m: Sections<NewsItem>): seq<string> {
    NonEmpty(m, SectionOrder(m)) + KeptMisc(m)
  }

  /** Sections that the parser can read back: names usable as headings, items that render and parse back. */
  ghost predicate Writable(m: Sections<NewsItem>) {
    && m.Valid()
    && (forall k :: k in m.items ==> k != [] && Trimmed(k))
    && (forall k, x :: k in m.items && x in m.items[k] ==> WellFormed(x))
  }

  lemma {:induction false} NonEmptyMembers(m: Sections<NewsItem>, names: seq<string>)
    ensures forall k :: k in NonEmpty(m, names) <==> k in names && ItemsOf(m, k) != []
  {
    if names != [] {
      NonEmptyMembers(m, names[..|names| - 1]);
      assert names == names[..|names| - 1] + [names[|names| - 1]];
    }
  }

  lemma {:induction false} RenderItemsAt(xs: seq<NewsItem>, i: nat)
    requires i < |xs|
    ensures RenderItems(xs)[i] == Render(xs[i])
  {
    if i < |xs| - 1 {
      RenderItemsAt(xs[..|xs| - 1], i);
    }
  }

  /** Each item line is read back as a bullet for its item. */
  lemma ItemLinesClassified(xs: seq<NewsItem>)
    requires forall x :: x in xs ==> WellFormed(x)
    ensures var ks := Kinds(RenderItems(xs));
            forall i :: 0 <= i < |xs| ==> ks[i].Item? && FromBullet(ks[i].bullet) == xs[i]
  {
    forall i | 0 <= i < |xs|
      ensures Kinds(RenderItems(xs))[i].Item? && FromBullet(Kinds(RenderItems(xs))[i].bullet) == xs[i]
    {
      KindsAt(RenderItems(xs), i);
      RenderItemsAt(xs, i);
      RenderParse(xs[i]);
    }
  }

  /** Bullet lines only, each for its item: together they file exactly those items. */
  lemma {:induction false} ItemsUnderAll(ks: seq<LineKind>, xs: seq<NewsItem>, name: string)
    requires |ks| == |xs|
    requires forall i :: 0 <= i < |ks| ==> ks[i].Item? && FromBullet(ks[i].bullet) == xs[i]
    ensures NoHeadings(ks)
    ensures ItemsUnder(ks, ItemUnder, name) == xs
  {
    if ks != [] {
      var n := |ks| - 1;
      ItemsUnderAll(ks[..n], xs[..n], name);
      assert xs == xs[..n] + [xs[n]];
    }
  }

  /** The item lines of a section read back as its items, and are not headings. */
  lemma ItemLinesReadBack(xs: seq<NewsItem>, name: string)
    requires forall x :: x in xs ==> WellFormed(x)
    ensures NoHeadings(Kinds(RenderItems(xs)))
    ensures ItemsUnder(Kinds(RenderItems(xs)), ItemUnder, name) == xs
  {
    ItemLinesClassified(xs);
    ItemsUnderAll(Kinds(RenderItems(xs)), xs, name);
  }

  lemma BlockKinds(name: string, xs: seq<NewsItem>)
    requires name != [] && Trimmed(name)
    ensures Kinds(["## " + name] + RenderItems(xs)) == [Heading(name)] + Kinds(RenderItems(xs))
  {
    KindsAppend(["## " + name], RenderItems(xs));
    HeadingLine(name);
    assert Kinds(["## " + name]) == [Heading(name)];
  }

  /** Reading one written section: the heading opens it and its items fill it, whatever came before. */
  lemma ReadBlock(st: ParseState<NewsItem>, name: string, xs: seq<NewsItem>)
    requires st.Ok()
    requires name != [] && Trimmed(name)
    requires forall x :: x in xs ==> WellFormed(x)
    ensures var r := ParseFrom(st, Kinds(["## " + name] + RenderItems(xs)), ItemUnder);
            && r.current == Some(name)
            && r.sections.keys == st.sections.Reset(name).keys
            && r.sections.items == st.sections.items[name := xs]
  {
    BlockKinds(name, xs);
    var post := Kinds(RenderItems(xs));
    ParseFromAppend(st, [Heading(name)], post, ItemUnder);
    var afterHeading := ReadHeading(st, name);
    ItemLinesReadBack(xs, name);
    BulletsAppend(afterHeading, post, ItemUnder);
    assert [] + xs == xs;
  }

  /** A heading line opens its section empty, whatever came before. */
  lemma ReadHeading(st: ParseState<NewsItem>, name: string) returns (after: ParseState<NewsItem>)
    requires st.Ok()
    ensures after.Ok() && after == ParseFrom(st, [Heading(name)], ItemUnder)
    ensures after.current == Some(name) && after.sections == st.sections.Reset(name)
  {
    after := ParseFrom(st, [Heading(name)], ItemUnder);
    assert [Heading(name)][..0] == [];
  }

  /** A blank line changes nothing. */
  lemma ReadBlank(st: ParseState<NewsItem>)
    requires st.Ok()
    ensures ParseFrom(st, Kinds([""]), ItemUnder) == st
  {
    assert Strip("") == "";
    assert Kinds([""]) == [Other];
  }

  lemma RestrictSnoc(m: Sections<NewsItem>, pre: seq<string>, name: string)
    ensures Restrict(m, pre + [name]).items == Restrict(m, pre).items[name := ItemsOf(m, name)]
  {
  }

  /** Reading the next written section after those already read. */
  lemma ReadNextSection(m: Sections<NewsItem>, st: ParseState<NewsItem>, pre: seq<string>, name: string)
    requires st.Ok() && st.sections == Restrict(m, pre)
    requires name !in pre && name in m.items
    requires name != [] && Trimmed(name)
    requires forall x :: x in m.items[name] ==> WellFormed(x)
    ensures var r := ParseFrom(st, Kinds(Block(m, name)), ItemUnder);
            r.Ok() && r.sections == Restrict(m, pre + [name])
  {
    ReadBlock(st, name, m.items[name]);
    RestrictSnoc(m, pre, name);
  }

  /** A section followed by its blank line reads as the section alone. */
  lemma ReadBlockThenBlank(st: ParseState<NewsItem>, block: seq<string>)
    requires st.Ok()
    ensures ParseFrom(st, Kinds(block + [""]), ItemUnder) == ParseFrom(st, Kinds(block), ItemUnder)
  {
    KindsAppend(block, [""]);
    ParseFromAppend(st, Kinds(block), Kinds([""]), ItemUnder);
    ReadBlank(ParseFrom(st, Kinds(block), ItemUnder));
  }

  /** The dated sections written in the order `names`, read back: exactly those with items, in that order. */
  lemma {:induction false} ReadDated(m: Sections<NewsItem>, names: seq<string>)
    requires Writable(m)
    requires Distinct(names)
    requires forall k :: k in names ==> k in m.items
    ensures var r := ParseFrom(Initial(), Kinds(DatedLines(m, names)), ItemUnder);
            r.sections == Restrict(m, NonEmpty(m, names))
  {
    if names == [] {
      assert Kinds([]) == [];
    } else {
      var n := |names| - 1;
      var p, last := names[..n], names[n];
      ReadDated(m, p);
      var before := DatedLines(m, p);
      var st := ParseFrom(Initial(), Kinds(before), ItemUnder);
      assert DatedLines(m, names) == before + (if ItemsOf(m, last) != [] then Block(m, last) + [""] else []);
      assert NonEmpty(m, names) == NonEmpty(m, p) + (if ItemsOf(m, last) != [] then [last] else []);
      if ItemsOf(m, last) != [] {
        NonEmptyMembers(m, p);
        assert last !in p;
        KindsAppend(before, Block(m, last) + [""]);
        ParseFromAppend(Initial(), Kinds(before), Kinds(Block(m, last) + [""]), ItemUnder);
        ReadBlockThenBlank(st, Block(m, last));
        assert forall x :: x in m.items[last] ==> WellFormed(x);
        ReadNextSection(m, st, NonEmpty(m, p), last);
      } else {
        assert DatedLines(m, names) == before;
        assert NonEmpty(m, names) == NonEmpty(m, p);
      }
    }
  }

  lemma {:induction false} DistinctCounts(a: seq<string>)
    ensures Distinct(a) <==> forall x :: multiset(a)[x] <= 1
  {
    if a != [] {
      var p, l := a[..|a| - 1], a[|a| - 1];
      DistinctCounts(p);
      assert a == p + [l];
      assert multiset(a) == multiset(p) + multiset{l};
      if Distinct(a) {
        forall j | 0 <= j < |p|
          ensures p[j] != l
        {
          assert a[j] == p[j];
        }
        assert multiset(p)[l] == 0;
      }
      if forall x :: multiset(a)[x] <= 1 {
        assert multiset(p)[l] == 0;
        assert l !in p;
        assert forall x :: multiset(p)[x] <= multiset(a)[x];
        forall i, j | 0 <= i < j < |a|
          ensures a[i] != a[j]
        {
          if j < |a| - 1 {
            assert a[i] == p[i] && a[j] == p[j];
          } else {
            assert a[i] == p[i];
          }
        }
      }
    }
  }

  lemma {:induction false} DatedNamesDistinct(names: seq<string>)
    requires Distinct(names)
    ensures Distinct(DatedNames(names))
  {
    if names != [] {
      var p, last := names[..|names| - 1], names[|names| - 1];
      DatedNamesDistinct(p);
      DatedNamesMembers(p);
      assert last !in p;
      var d := DatedNames(p);
      assert forall k :: k in d ==> k in p;
    }
  }

  /** The dated sections are written once each: every name that is not a misc section, and no other. */
  lemma SectionOrderFacts(m: Sections<NewsItem>)
    requires m.Valid()
    ensures Distinct(SectionOrder(m))
    ensures forall k :: k in SectionOrder(m) <==> k in m.items && !IsMisc(k)
  {
    var d := DatedNames(m.keys);
    DatedNamesMembers(m.keys);
    DatedNamesDistinct(m.keys);
    SortDescSorted(d, ParseDateForSorting);
    DistinctCounts(d);
    DistinctCounts(SectionOrder(m));
    forall k
      ensures k in SectionOrder(m) <==> k in d
    {
      assert k in SectionOrder(m) <==> k in multiset(SectionOrder(m));
    }
  }

  /** The whole archive below the title, read back: the written sections, in the order written, with their items. */
  lemma ReadBody(m: Sections<NewsItem>)
    requires Writable(m)
    ensures ParseFrom(Initial(), Kinds(BodyLines(m)), ItemUnder).sections == Restrict(m, Emitted(m))
  {
    var order := SectionOrder(m);
    SectionOrderFacts(m);
    ReadDated(m, order);
    var dated := DatedLines(m, order);
    var misc := MiscLines(m, MiscName(m.keys));
    KindsAppend(dated, misc);
    ParseFromAppend(Initial(), Kinds(dated), Kinds(misc), ItemUnder);
    ReadMiscTail(m, ParseFrom(Initial(), Kinds(dated), ItemUnder));
  }

  /** After the dated sections, the misc section, when written, is read back last. */
  lemma ReadMiscTail(m: Sections<NewsItem>, st: ParseState<NewsItem>)
    requires Writable(m)
    requires st == ParseFrom(Initial(), Kinds(DatedLines(m, SectionOrder(m))), ItemUnder)
    requires st.sections == Restrict(m, NonEmpty(m, SectionOrder(m)))
    ensures ParseFrom(st, Kinds(MiscLines(m, MiscName(m.keys))), ItemUnder).sections == Restrict(m, Emitted(m))
  {
    var order := SectionOrder(m);
    SectionOrderFacts(m);
    var misc := MiscLines(m, MiscName(m.keys));
    if KeptMisc(m) == [] {
      assert misc == [];
      assert Kinds(misc) == [];
      assert Emitted(m) == NonEmpty(m, order);
    } else {
      var n := MiscName(m.keys).value;
      MiscNameIn(m.keys);
      assert misc == Block(m, n);
      ReadMisc(m, st, order, n);
    }
  }

  lemma ReadMisc(m: Sections<NewsItem>, st: ParseState<NewsItem>, order: seq<string>, n: string)
    requires Writable(m)
    requires st.Ok() && st.sections == Restrict(m, NonEmpty(m, order))
    requires n in m.items && IsMisc(n) && ItemsOf(m, n) != []
    requires forall k :: k in order ==> !IsMisc(k)
    ensures var r := ParseFrom(st, Kinds(Block(m, n)), ItemUnder);
            r.sections == Restrict(m, NonEmpty(m, order) + [n])
  {
    NonEmptyMembers(m, order);
    assert n !in NonEmpty(m, order);
    assert forall x :: x in m.items[n] ==> WellFormed(x);
    ReadNextSection(m, st, NonEmpty(m, order), n);
  }

  /** The title line is neither a section heading nor a bullet: reading the archive back ignores it. */
  lemma TitleIsOther()
    ensures Kinds(["# AI news"]) == [Other]
  {
    var t := "# AI news";
    assert Trimmed(t);
    StripTrimmed(t);
    assert t[..3] == "# A";
    assert t[..2] == "# ";
    assert Classify(t) == Other;
    KindsAt([t], 0);
  }

  lemma ReadTitle(existing: string, body: seq<string>)
    ensures ParseLines(TitleLines(existing) + body, ItemUnder) == ParseLines(body, ItemUnder)
  {
    if StartsWith(Strip(existing), "# ") {
      TitleIsOther();
    }
    assert NoHeadings(Kinds(TitleLines(existing)));
    LeadingLinesDropped(TitleLines(existing), body, ItemUnder);
  }

  /**
    Reading the merged archive back gives exactly the sections written, in
    the order written and with their merged items, provided the items are
    ones the parser reads back (see `WellFormed`).
   */
  lemma ArchiveReadsBack(existing: string, update: string)
    requires Writable(MergeSections(Parsed(existing), Parsed(update)))
    ensures var m := MergeSections(Parsed(existing), Parsed(update));
            ParseLines(OutputLines(existing, update), ItemUnder).sections == Restrict(m, Emitted(m))
  {
    var m := MergeSections(Parsed(existing), Parsed(update));
    ReadTitle(existing, BodyLines(m));
    ParseLinesByKinds(BodyLines(m), ItemUnder);
    ReadBody(m);
  }

  lemma {:induction false} NonEmptyDescending(m: Sections<NewsItem>, xs: seq<string>, key: string -> DateKey)
    requires Descending(xs, key)
    ensures Descending(NonEmpty(m, xs), key)
  {
    if xs != [] {
      var p, last := xs[..|xs| - 1], xs[|xs| - 1];
      assert Descending(p, key) by {
        forall i, j | 0 <= i < j < |p|
          ensures !Earlier(key(p[i]), key(p[j]))
        {
          assert p[i] == xs[i] && p[j] == xs[j];
        }
      }
      NonEmptyDescending(m, p, key);
      NonEmptyMembers(m, p);
      var d := NonEmpty(m, p);
      forall k | k in d
        ensures !Earlier(key(k), key(last))
      {
        var i :| 0 <= i < |p| && p[i] == k;
        assert xs[i] == k;
      }
    }
  }

  /**
    What is written, and in which order: a section appears exactly when it
    has items and is not a misc section other than the one kept; the dated
    sections run most recent first; the misc section, if any, comes last.
   */
  lemma EmittedFacts(m: Sections<NewsItem>)
    requires m.Valid()
    ensures forall k :: k in Emitted(m) <==> k in m.items && ItemsOf(m, k) != [] && (!IsMisc(k) || MiscName(m.keys) == Some(k))
    ensures Descending(NonEmpty(m, SectionOrder(m)), ParseDateForSorting)
    ensures forall i :: 0 <= i < |Emitted(m)| - 1 ==> !IsMisc(Emitted(m)[i])
  {
    var order := SectionOrder(m);
    SectionOrderFacts(m);
    SortDescSorted(DatedNames(m.keys), ParseDateForSorting);
    NonEmptyDescending(m, order, ParseDateForSorting);
    NonEmptyMembers(m, order);
    MiscNameIn(m.keys);
    assert |KeptMisc(m)| <= 1;
    forall i | 0 <= i < |Emitted(m)| - 1
      ensures !IsMisc(Emitted(m)[i])
    {
      assert Emitted(m)[i] == NonEmpty(m, order)[i];
    }
  }

  lemma {:induction false} DatedLinesHead(m: Sections<NewsItem>, names: seq<string>)
    ensures DatedLines(m, names) == [] || StartsWith(DatedLines(m, names)[0], "## ")
  {
    if names != [] {
      var p, last := names[..|names| - 1], names[|names| - 1];
      DatedLinesHead(m, p);
      if DatedLines(m, p) == [] && ItemsOf(m, last) != [] {
        assert DatedLines(m, names)[0] == "## " + last;
      }
    }
  }

  lemma TitleIffBody(existing: string, m: Sections<NewsItem>)
    ensures var lines := TitleLines(existing) + BodyLines(m);
            (lines != [] && lines[0] == "# AI news") <==> StartsWith(Strip(existing), "# ")
  {
    BodyHead(m);
    assert "# AI news"[..3] == "# A";
  }

  /** The lines below the title, when there are any, open with a section heading. */
  lemma BodyHead(m: Sections<NewsItem>)
    ensures BodyLines(m) == [] || StartsWith(BodyLines(m)[0], "## ")
  {
    DatedLinesHead(m, SectionOrder(m));
  }

  /**
    The merged archive opens with the line `# AI news` exactly when the
    existing archive, stripped, begins with `# `; every other line opening
    it would be a section heading.
   */
  lemma TitleIff(existing: string, update: string)
    ensures var lines := OutputLines(existing, update);
            (lines != [] && lines[0] == "# AI news") <==> StartsWith(Strip(existing), "# ")
  {
    TitleIffBody(existing, MergeSections(Parsed(existing), Parsed(update)));
  }

  /** No section name and no item field holds a line break. */
  ghost predicate SingleLines(m: Sections<NewsItem>) {
    && (forall k :: k in m.items ==> '\n' !in k)
    && (forall k, x :: k in m.items && x in m.items[k] ==> '\n' !in x.text && '\n' !in x.url)
  }

  lemma RenderSingle(x: NewsItem)
    requires '\n' !in x.text && '\n' !in x.url
    ensures '\n' !in Render(x)
  {
  }

  lemma BlockSingle(m: Sections<NewsItem>, name: string)
    requires SingleLines(m) && name in m.items
    ensures forall l :: l in Block(m, name) ==> '\n' !in l
  {
    var xs := m.items[name];
    var rs := RenderItems(xs);
    forall i | 0 <= i < |xs|
      ensures '\n' !in rs[i]
    {
      RenderItemsAt(xs, i);
      assert xs[i] in m.items[name];
      RenderSingle(xs[i]);
    }
    assert Block(m, name) == ["## " + name] + rs;
    assert '\n' !in "## " + name;
  }

  lemma {:induction false} DatedLinesSingle(m: Sections<NewsItem>, names: seq<string>)
    requires SingleLines(m)
    ensures forall l :: l in DatedLines(m, names) ==> '\n' !in l
  {
    if names != [] {
      var p, last := names[..|names| - 1], names[|names| - 1];
      DatedLinesSingle(m, p);
      if ItemsOf(m, last) != [] {
        BlockSingle(m, last);
      }
    }
  }

  lemma BodySingle(existing: string, m: Sections<NewsItem>)
    requires SingleLines(m)
    ensures forall l :: l in TitleLines(existing) + BodyLines(m) ==> '\n' !in l
  {
    DatedLinesSingle(m, SectionOrder(m));
    if MiscName(m.keys).Some? && ItemsOf(m, MiscName(m.keys).value) != [] {
      BlockSingle(m, MiscName(m.keys).value);
    }
  }

  /** Lines without line breaks, joined and parsed, read as the lines themselves. */
  lemma ReadJoined(lines: seq<string>)
    requires forall l :: l in lines ==> '\n' !in l
    ensures ParseLines(Split(Join(lines, "\n"), '\n'), ItemUnder) == ParseLines(lines, ItemUnder)
  {
    if lines == [] {
      assert Split("", '\n') == [""];
      assert Strip("") == "";
      assert Classify("") == Other;
      assert ParseLines([""], ItemUnder) == Step(ParseLines([], ItemUnder), Other, ItemUnder);
    } else {
      SplitJoin(lines, '\n');
    }
  }

  /**
    The archive file itself reads back as its sections: joining the lines
    with line breaks and parsing the result gives the written sections, in
    order, with their merged items.
   */
  lemma ArchiveFileReadsBack(existing: string, update: string)
    requires Strip(existing) != []
    requires Writable(MergeSections(Parsed(existing), Parsed(update)))
    requires SingleLines(MergeSections(Parsed(existing), Parsed(update)))
    ensures var m := MergeSections(Parsed(existing), Parsed(update));
            Parsed(MergeNews(existing, update)) == Restrict(m, Emitted(m))
  {
    var m := MergeSections(Parsed(existing), Parsed(update));
    ArchiveReadsBack(existing, update);
    BodySingle(existing, m);
    ReadJoined(OutputLines(existing, update));
  }
}
