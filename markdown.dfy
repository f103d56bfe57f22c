/**
  The archive's markdown grammar, shared by both news tools:
  `## <name>` headings open a section, `* <text>` bullets are items, and a
  bullet may carry a link `[<domain>](<url>)` found by the regular expression
  `\[([^\]]+)\]\(([^)]+)\)`.  Sections form an ordered dictionary (Python's
  `dict`: a key keeps the position of its first insertion).
 */
module Markdown {
  import opened Text

  datatype Link = Link(domain: string, url: string)

  /** What the link pattern matches when its text `[domain](url)` starts at index `i`. */
  predicate LinkAt(s: string, i: nat, l: Link) {
    && l.domain != [] && ']' !in l.domain
    && l.url != [] && ')' !in l.url
    && i + |LinkText(l)| <= |s| && s[i..i + |LinkText(l)|] == LinkText(l)
  }

  /** The text `[domain](url)`. */
  function LinkText(l: Link): string {
    "[" + l.domain + "](" + l.url + ")"
  }

  lemma LinkTextParts(l: Link)
    ensures var t, n := LinkText(l), |l.domain|;
            && |t| == 4 + n + |l.url|
            && t[0] == '[' && t[1 + n] == ']' && t[2 + n] == '(' && t[|t| - 1] == ')'
            && t[1..1 + n] == l.domain && t[3 + n..3 + n + |l.url|] == l.url
  {
    var a := "[" + l.domain + "](";
    assert LinkText(l) == a + l.url + ")";
    assert (a + l.url + ")")[|a|..|a| + |l.url|] == l.url;
    assert LinkText(l) == "[" + l.domain + ("](" + l.url + ")");
    assert ("[" + l.domain + ("](" + l.url + ")"))[1..1 + |l.domain|] == l.domain;
  }

  /** The regular expression tried at index `i`: `[^\]]+` runs to the first `]`, `[^)]+` to the first `)`. */
  function MatchAt(s: string, i: nat): Option<Link> {
    if i >= |s| || s[i] != '[' then None
    else match IndexOf(s, ']', i + 1)
      case None => None
      case Some(j) =>
        if j == i + 1 || j + 1 >= |s| || s[j + 1] != '(' then None
        else match IndexOf(s, ')', j + 2)
          case None => None
          case Some(k) => if k == j + 2 then None else Some(Link(s[i + 1..j], s[j + 2..k]))
  }

  lemma MatchAtSound(s: string, i: nat)
    requires MatchAt(s, i).Some?
    ensures LinkAt(s, i, MatchAt(s, i).value)
  {
    var l := MatchAt(s, i).value;
    var j := IndexOf(s, ']', i + 1).value;
    var k := IndexOf(s, ')', j + 2).value;
    assert l.domain == s[i + 1..j] && l.url == s[j + 2..k];
    assert ']' !in l.domain by {
      forall m | 0 <= m < |l.domain| ensures l.domain[m] != ']' {
        assert l.domain[m] == s[i + 1 + m];
      }
    }
    assert ')' !in l.url by {
      forall m | 0 <= m < |l.url| ensures l.url[m] != ')' {
        assert l.url[m] == s[j + 2 + m];
      }
    }
    assert s[i..k + 1] == [s[i]] + s[i + 1..j] + [s[j], s[j + 1]] + s[j + 2..k] + [s[k]];
  }

  /** Where a link occurs, its brackets and parts sit at fixed offsets. */
  lemma LinkAtParts(s: string, i: nat, l: Link)
    requires LinkAt(s, i, l)
    ensures var j := i + 1 + |l.domain|; var k := j + 2 + |l.url|;
            && k < |s| && s[i] == '[' && s[j] == ']' && s[j + 1] == '(' && s[k] == ')'
            && s[i + 1..j] == l.domain && s[j + 2..k] == l.url
  {
    var n, t := |l.domain|, LinkText(l);
    LinkTextParts(l);
    var w := s[i..i + |t|];
    assert w == t;
    var j := i + 1 + n;
    var k := j + 2 + |l.url|;
    assert forall x :: 0 <= x < |t| ==> s[i + x] == t[x];
    assert s[i + 1..j] == t[1..1 + n];
    assert s[j + 2..k] == t[3 + n..3 + n + |l.url|];
    assert s[i] == t[0] && s[j] == t[1 + n] && s[j + 1] == t[2 + n] && s[k] == t[|t| - 1];
  }

  lemma MatchAtComplete(s: string, i: nat, l: Link)
    requires LinkAt(s, i, l)
    ensures MatchAt(s, i) == Some(l)
  {
    var j := i + 1 + |l.domain|;
    LinkAtParts(s, i, l);
    IndexOfSlice(s, ']', i + 1, j);
    IndexOfSlice(s, ')', j + 2, j + 2 + |l.url|);
    MatchAtFound(s, i, j, j + 2 + |l.url|);
  }

  /** The matcher's steps, once both closing characters are located. */
  lemma MatchAtFound(s: string, i: nat, j: nat, k: nat)
    requires i + 1 < j && j + 2 < k < |s| && s[i] == '[' && s[j + 1] == '('
    requires IndexOf(s, ']', i + 1) == Some(j) && IndexOf(s, ')', j + 2) == Some(k)
    ensures MatchAt(s, i) == Some(Link(s[i + 1..j], s[j + 2..k]))
  {
  }

  /** The matcher finds exactly the links the pattern describes: both directions. */
  lemma MatchAtExact(s: string, i: nat, l: Link)
    ensures MatchAt(s, i) == Some(l) <==> LinkAt(s, i, l)
  {
    if MatchAt(s, i) == Some(l) {
      MatchAtSound(s, i);
    }
    if LinkAt(s, i, l) {
      MatchAtComplete(s, i, l);
    }
  }

  /** `re.search`: the leftmost match at or after `i`. */
  function SearchFrom(s: string, i: nat): Option<Link>
    decreases |s| - i
  {
    if i >= |s| then None
    else if MatchAt(s, i).Some? then MatchAt(s, i)
    else SearchFrom(s, i + 1)
  }

  function FindLink(s: string): Option<Link> {
    SearchFrom(s, 0)
  }

  lemma {:induction false} SearchFromLeftmost(s: string, i: nat)
    decreases |s| - i
    ensures SearchFrom(s, i).None? ==> forall p, l :: i <= p && LinkAt(s, p, l) ==> false
    ensures SearchFrom(s, i).Some? ==>
              exists p :: i <= p < |s| && LinkAt(s, p, SearchFrom(s, i).value)
                          && forall q, l :: i <= q < p ==> !LinkAt(s, q, l)
  {
    forall l | LinkAt(s, i, l) ensures MatchAt(s, i) == Some(l) {
      MatchAtExact(s, i, l);
    }
    if i < |s| {
      if MatchAt(s, i).Some? {
        MatchAtExact(s, i, MatchAt(s, i).value);
      } else {
        SearchFromLeftmost(s, i + 1);
        forall l ensures !LinkAt(s, i, l) {
          MatchAtExact(s, i, l);
        }
      }
    }
  }

  /** `re.search(pattern, s)` finds a link exactly when one occurs, and then the leftmost one. */
  lemma FindLinkLeftmost(s: string)
    ensures FindLink(s).None? <==> forall p, l :: LinkAt(s, p, l) ==> false
    ensures FindLink(s).Some? ==>
              exists p: nat :: p < |s| && LinkAt(s, p, FindLink(s).value)
                          && forall q: nat, l :: q < p ==> !LinkAt(s, q, l)
  {
    SearchFromLeftmost(s, 0);
  }

  /** The text ` - [domain](url)` that a bullet's link is removed with. */
  function LinkSuffix(l: Link): string {
    " - [" + l.domain + "](" + l.url + ")"
  }

  /** A bullet after `* ` is removed and the rest stripped: the title and the link found in it. */
  datatype Bullet = Bullet(title: string, link: Option<Link>)

  function ParseBulletText(text: string): Bullet {
    match FindLink(text)
    case Some(l) => Bullet(RemoveAll(text, LinkSuffix(l)), Some(l))
    case None => Bullet(text, None)
  }

  lemma {:induction false} SearchSkips(s: string, i: nat, p: nat)
    requires i <= p <= |s|
    requires forall q :: i <= q < p ==> s[q] != '['
    ensures SearchFrom(s, i) == SearchFrom(s, p)
    decreases p - i
  {
    if i < p {
      SearchSkips(s, i + 1, p);
    }
  }

  predicate OccursAt(s: string, q: nat, pat: string) {
    q + |pat| <= |s| && s[q..q + |pat|] == pat
  }

  /** Removing `pat` from `t + pat` leaves `t` when no occurrence starts inside `t`. */
  lemma {:induction false} RemoveAllTrailing(t: string, pat: string)
    requires pat != []
    requires forall q :: 0 <= q < |t| ==> !OccursAt(t + pat, q, pat)
    ensures RemoveAll(t + pat, pat) == t
  {
    if t == [] {
      assert t + pat == pat;
      assert pat[..|pat|] == pat && pat[|pat|..] == [];
    } else {
      var s := t + pat;
      assert !OccursAt(s, 0, pat);
      assert s[..|pat|] == s[0..0 + |pat|];
      assert s[1..] == t[1..] + pat;
      forall q | 0 <= q < |t[1..]| ensures !OccursAt(t[1..] + pat, q, pat) {
        assert !OccursAt(s, q + 1, pat);
        assert (t[1..] + pat)[q..q + |pat|] == s[q + 1..q + 1 + |pat|];
      }
      RemoveAllTrailing(t[1..], pat);
      assert t == [t[0]] + t[1..];
    }
  }

  lemma LinkAtOpens(s: string, p: nat, l: Link)
    requires LinkAt(s, p, l)
    ensures p < |s| && s[p] == '[' && s[p] in s
  {
    LinkTextParts(l);
    assert s[p..p + |LinkText(l)|][0] == '[';
  }

  /** A well-formed bullet: non-empty, stripped text with no `[`. */
  predicate PlainText(t: string) {
    t != [] && Trimmed(t) && '[' !in t
  }

  /** The bullet text a renderer writes for a title and a link is read back as that title and link. */
  lemma BulletTextWithLink(t: string, l: Link)
    requires PlainText(t)
    requires l.domain != [] && ']' !in l.domain && l.url != [] && ')' !in l.url
    ensures ParseBulletText(t + LinkSuffix(l)) == Bullet(t, Some(l))
  {
    SuffixLinkFound(t, l);
    SuffixOnlyAtEnd(t, l);
    RemoveAllTrailing(t, LinkSuffix(l));
  }

  /** The first link in `t + LinkSuffix(l)` is `l`: the title holds no `[`. */
  lemma SuffixLinkFound(t: string, l: Link)
    requires '[' !in t
    requires l.domain != [] && ']' !in l.domain && l.url != [] && ')' !in l.url
    ensures FindLink(t + LinkSuffix(l)) == Some(l)
  {
    var pat := LinkSuffix(l);
    var s := t + pat;
    var p := |t| + 3;
    assert pat == " - " + LinkText(l);
    assert s[p..p + |LinkText(l)|] == LinkText(l);
    MatchAtComplete(s, p, l);
    forall q | 0 <= q < p ensures s[q] != '[' {
      if q < |t| {
        assert s[q] == t[q];
      }
    }
    SearchSkips(s, 0, p);
  }

  /** The suffix occurs nowhere but at the end: its `[` would have to lie in the title. */
  lemma SuffixOnlyAtEnd(t: string, l: Link)
    requires '[' !in t
    ensures forall q :: 0 <= q < |t| ==> !OccursAt(t + LinkSuffix(l), q, LinkSuffix(l))
  {
    var pat := LinkSuffix(l);
    var s := t + pat;
    assert pat[3] == '[';
    forall q | 0 <= q < |t| ensures !OccursAt(s, q, pat) {
      if q + 3 < |t| {
        assert s[q + 3] == t[q + 3];
      }
      assert s[q..q + |pat|][3] == s[q + 3] != '[';
    }
  }

  lemma BulletTextPlain(t: string)
    requires PlainText(t)
    ensures ParseBulletText(t) == Bullet(t, None)
  {
    forall p: nat, l | LinkAt(t, p, l) ensures false {
      LinkAtOpens(t, p, l);
      assert false;
    }
    FindLinkLeftmost(t);
  }

  /** A line that, stripped, starts with `* `. */
  function BulletOf(raw: string): Option<Bullet> {
    var line := Strip(raw);
    if StartsWith(line, "* ") then Some(ParseBulletText(Strip(line[2..]))) else None
  }

  /** A line that, stripped, starts with `## ` (and not `### `): its name. */
  function HeadingOf(raw: string): Option<string> {
    var line := Strip(raw);
    if StartsWith(line, "## ") && !StartsWith(line, "### ") then Some(Strip(line[3..])) else None
  }

  /** An ordered dictionary from section name to the items under it. */
  datatype Sections<T> = Sections(keys: seq<string>, items: map<string, seq<T>>) {
    predicate Valid() {
      && (forall i, j :: 0 <= i < j < |keys| ==> keys[i] != keys[j])
      && (forall k :: k in items ==> k in keys)
      && (forall k :: k in keys ==> k in items)
    }

    /** `d[k] = []`: a new key goes last, an existing one keeps its place. */
    function Reset(k: string): (r: Sections<T>)
      ensures Valid() ==> r.Valid()
      ensures r.items == items[k := []]
      ensures r.keys == if k in items then keys else keys + [k]
    {
      Sections(if k in items then keys else keys + [k], items[k := []])
    }

    /** `d[k].extend(xs)`. */
    function Extend(k: string, xs: seq<T>): (r: Sections<T>)
      requires k in items
      ensures Valid() ==> r.Valid()
      ensures r.keys == keys
      ensures r.items == items[k := items[k] + xs]
    {
      Sections(keys, items[k := items[k] + xs])
    }
  }

  function NoSections<T>(): (r: Sections<T>)
    ensures r.Valid() && r.keys == [] && r.items == map[]
  {
    Sections([], map[])
  }

  /** A line as the parse loop sees it. */
  datatype LineKind = Heading(name: string) | Item(bullet: Bullet) | Other

  function Classify(raw: string): LineKind {
    match HeadingOf(raw)
    case Some(name) => Heading(name)
    case None =>
      match BulletOf(raw)
      case Some(b) => Item(b)
      case None => Other
  }

  lemma HeadingLineStrip(name: string)
    requires name != [] && Trimmed(name)
    ensures Strip("## " + name) == "## " + name
  {
    var line := "## " + name;
    assert line[3..] == name;
    assert line[|line| - 1] == name[|name| - 1];
    StripTrimmed(line);
  }

  /** A heading line `## <name>` is read back as that name. */
  lemma HeadingLine(name: string)
    requires name != [] && Trimmed(name)
    ensures Classify("## " + name) == Heading(name)
  {
    assert ("## " + name)[3..] == name;
    HeadingLineStrip(name);
    StripTrimmed(name);
    assert HeadingOf("## " + name) == Some(name);
  }

  lemma BulletLineStrip(t: string)
    requires t != [] && Trimmed(t)
    ensures Strip("* " + t) == "* " + t
  {
    var line := "* " + t;
    assert line[2..] == t;
    assert line[|line| - 1] == t[|t| - 1];
    StripTrimmed(line);
  }

  /** A bullet line `* <text>` is read back as the bullet its text parses to. */
  lemma BulletLine(t: string)
    requires t != [] && Trimmed(t)
    ensures Classify("* " + t) == Item(ParseBulletText(t))
  {
    assert ("* " + t)[2..] == t;
    BulletLineStrip(t);
    StripTrimmed(t);
    assert HeadingOf("* " + t).None?;
    assert BulletOf("* " + t) == Some(ParseBulletText(t));
  }

  function Kinds(lines: seq<string>): (r: seq<LineKind>)
    ensures |r| == |lines|
  {
    if lines == [] then [] else Kinds(lines[..|lines| - 1]) + [Classify(lines[|lines| - 1])]
  }

  lemma {:induction false} KindsAt(lines: seq<string>, i: nat)
    requires i < |lines|
    ensures Kinds(lines)[i] == Classify(lines[i])
  {
    if i < |lines| - 1 {
      KindsAt(lines[..|lines| - 1], i);
    }
  }

  lemma {:induction false} KindsAppend(a: seq<string>, b: seq<string>)
    ensures Kinds(a + b) == Kinds(a) + Kinds(b)
    decreases |b|
  {
    if b == [] {
      assert a + b == a;
    } else {
      assert (a + b)[..|a + b| - 1] == a + b[..|b| - 1];
      KindsAppend(a, b[..|b| - 1]);
    }
  }

  /** The parser's state: the dictionary built so far and the current section, if any. */
  datatype ParseState<T> = ParseState(sections: Sections<T>, current: Option<string>) {
    /** The current section, if any, is a key: appending to it cannot fail. */
    predicate Ok() {
      current.Some? ==> current.value in sections.items
    }
  }

  function Initial<T>(): (r: ParseState<T>)
    ensures r.Ok() && r.sections.Valid()
  {
    ParseState(NoSections(), None)
  }

  /** One line of the parse loop; `mk` builds an item from a bullet and its section name. */
  function Step<T>(st: ParseState<T>, line: LineKind, mk: (Bullet, string) -> T): (r: ParseState<T>)
    requires st.Ok()
    ensures r.Ok()
  {
    match line
    case Heading(name) => ParseState(st.sections.Reset(name), Some(name))
    case Item(b) =>
      if st.current.Some?
      then ParseState(st.sections.Extend(st.current.value, [mk(b, st.current.value)]), st.current)
      else st
    case Other => st
  }

  function ParseFrom<T>(st: ParseState<T>, lines: seq<LineKind>, mk: (Bullet, string) -> T): (r: ParseState<T>)
    requires st.Ok()
    ensures r.Ok()
    decreases |lines|
  {
    if lines == [] then st
    else Step(ParseFrom(st, lines[..|lines| - 1], mk), lines[|lines| - 1], mk)
  }

  /** The parse of raw lines: the same fold, each line classified as it is reached. */
  function ParseLines<T>(lines: seq<string>, mk: (Bullet, string) -> T): (r: ParseState<T>)
    ensures r.Ok()
  {
    if lines == [] then Initial()
    else Step(ParseLines(lines[..|lines| - 1], mk), Classify(lines[|lines| - 1]), mk)
  }

  lemma {:induction false} ParseLinesByKinds<T>(lines: seq<string>, mk: (Bullet, string) -> T)
    ensures ParseLines(lines, mk) == ParseFrom(Initial(), Kinds(lines), mk)
  {
    if lines != [] {
      var ks := Kinds(lines);
      ParseLinesByKinds(lines[..|lines| - 1], mk);
      assert ks[..|ks| - 1] == Kinds(lines[..|lines| - 1]);
    }
  }

  lemma ParseLinesPrefix<T>(lines: seq<string>, i: nat, mk: (Bullet, string) -> T)
    requires i < |lines|
    ensures ParseLines(lines[..i + 1], mk) == Step(ParseLines(lines[..i], mk), Classify(lines[i]), mk)
  {
    assert lines[..i + 1][..i] == lines[..i];
  }

  /**
    `parse_markdown_content`: split on newlines, then for each stripped line a
    heading (re)opens its section empty and a bullet under a section is appended to it.
   */
  method ParseMarkdownSections<T>(content: string, mk: (Bullet, string) -> T) returns (sections: Sections<T>)
    ensures sections.Valid()
    ensures sections == ParseLines(Split(content, '\n'), mk).sections
  {

    var lines := Split(content, '\n');
    sections := Sections([], map[]);
    var current: Option<string> := None;
    var i := 0;
    while i < |lines|
      invariant 0 <= i <= |lines|
      invariant ParseState(sections, current) == ParseLines(lines[..i], mk)
    {
      ghost var before := ParseState(sections, current);
      ghost var kind := Classify(lines[i]);
      ParseLinesPrefix(lines, i, mk);
      var line := Strip(lines[i]);
      if StartsWith(line, "## ") && !StartsWith(line, "### ") {
        assert kind == Heading(Strip(line[3..]));
        current := Some(Strip(line[3..]));
        sections := sections.Reset(current.value);
      } else if StartsWith(line, "* ") && current.Some? {
        var bullet := ParseBulletText(Strip(line[2..]));
        assert kind == Item(bullet);
        sections := sections.Extend(current.value, [mk(bullet, current.value)]);
      } else {
        assert kind.Other? || current.None?;
        assert Step(before, kind, mk) == before;
      }
      i := i + 1;
    }
    assert lines[..|lines|] == lines;
    ParseValid(Kinds(lines), mk);
    ParseLinesByKinds(lines, mk);
  }

  /** The items of the bullet lines among `lines`, in order. */
  function BulletItems<T>(lines: seq<string>, mk: Bullet -> T): (r: seq<T>)
    ensures |r| <= |lines|
  {
    if lines == [] then []
    else
      var prev := BulletItems(lines[..|lines| - 1], mk);
      match BulletOf(lines[|lines| - 1])
      case Some(b) => prev + [mk(b)]
      case None => prev
  }

  /** `extract_news_items_from_text`: every bullet line of the text, headings or not. */
  method ExtractBulletItems<T>(text: string, mk: Bullet -> T) returns (items: seq<T>)
    ensures items == BulletItems(Split(text, '\n'), mk)
  {
    var lines := Split(text, '\n');
    items := [];
    var i := 0;
    while i < |lines|
      invariant 0 <= i <= |lines|
      invariant items == BulletItems(lines[..i], mk)
    {
      assert lines[..i + 1][..i] == lines[..i];
      var line := Strip(lines[i]);
      if StartsWith(line, "* ") {
        items := items + [mk(ParseBulletText(Strip(line[2..])))];
      }
      i := i + 1;
    }
    assert lines[..|lines|] == lines;
  }

  /** The parsed dictionary is well formed: its keys are distinct and are exactly the labels it maps. */
  lemma {:induction false} ParseValid<T>(lines: seq<LineKind>, mk: (Bullet, string) -> T)
    ensures ParseFrom(Initial(), lines, mk).sections.Valid()
  {
    if lines != [] {
      ParseValid(lines[..|lines| - 1], mk);
    }
  }

  lemma {:induction false} ParseFromAppend<T>(st: ParseState<T>, a: seq<LineKind>, b: seq<LineKind>, mk: (Bullet, string) -> T)
    requires st.Ok()
    ensures ParseFrom(st, a + b, mk) == ParseFrom(ParseFrom(st, a, mk), b, mk)
    decreases |b|
  {
    if b == [] {
      assert a + b == a;
    } else {
      assert (a + b)[..|a + b| - 1] == a + b[..|b| - 1];
      ParseFromAppend(st, a, b[..|b| - 1], mk);
    }
  }

  predicate NoHeadings(lines: seq<LineKind>) {
    forall i :: 0 <= i < |lines| ==> !lines[i].Heading?
  }

  lemma {:induction false} NoHeadingsKeepInitial<T>(lines: seq<LineKind>, mk: (Bullet, string) -> T)
    requires NoHeadings(lines)
    ensures ParseFrom(Initial(), lines, mk) == Initial()
  {
    if lines != [] {
      NoHeadingsKeepInitial(lines[..|lines| - 1], mk);
    }
  }

  /** Bullet lines (and any other lines) before the first heading are dropped. */
  lemma LeadingLinesDropped<T>(pre: seq<string>, rest: seq<string>, mk: (Bullet, string) -> T)
    requires NoHeadings(Kinds(pre))
    ensures ParseLines(pre + rest, mk) == ParseLines(rest, mk)
  {
    ParseLinesByKinds(pre + rest, mk);
    ParseLinesByKinds(rest, mk);
    KindsAppend(pre, rest);
    ParseFromAppend(Initial(), Kinds(pre), Kinds(rest), mk);
    NoHeadingsKeepInitial(Kinds(pre), mk);
  }

  /** The items built from the bullet lines among `lines`, as the parser files them under `name`. */
  function ItemsUnder<T>(lines: seq<LineKind>, mk: (Bullet, string) -> T, name: string): seq<T> {
    if lines == [] then []
    else if lines[|lines| - 1].Item? then ItemsUnder(lines[..|lines| - 1], mk, name) + [mk(lines[|lines| - 1].bullet, name)]
    else ItemsUnder(lines[..|lines| - 1], mk, name)
  }

  /** Under a current section, heading-free lines only append to that section. */
  lemma {:induction false} BulletsAppend<T>(st: ParseState<T>, post: seq<LineKind>, mk: (Bullet, string) -> T)
    requires st.Ok() && st.current.Some?
    requires NoHeadings(post)
    ensures var name := st.current.value;
            var after := ParseFrom(st, post, mk);
            && after.current == st.current
            && after.sections.keys == st.sections.keys
            && after.sections.items == st.sections.items[name := st.sections.items[name] + ItemsUnder(post, mk, name)]
    decreases |post|
  {
    var name := st.current.value;
    if post == [] {
      assert st.sections.items[name] + [] == st.sections.items[name];
      assert st.sections.items[name := st.sections.items[name]] == st.sections.items;
    } else {
      var init := post[..|post| - 1];
      BulletsAppend(st, init, mk);
      var mid := ParseFrom(st, init, mk);
      assert ParseFrom(st, post, mk) == Step(mid, post[|post| - 1], mk);
      assert !post[|post| - 1].Heading?;
      var old_items := st.sections.items[name];
      if post[|post| - 1].Item? {
        var x := mk(post[|post| - 1].bullet, name);
        assert ItemsUnder(post, mk, name) == ItemsUnder(init, mk, name) + [x];
        assert mid.sections.items[name] == old_items + ItemsUnder(init, mk, name);
        assert (old_items + ItemsUnder(init, mk, name)) + [x] == old_items + ItemsUnder(post, mk, name);
      } else {
        assert ItemsUnder(post, mk, name) == ItemsUnder(init, mk, name);
      }
    }
  }

  /**
    A repeated heading resets its section: whatever the lines before it, the
    section afterwards holds exactly the bullets that follow up to the next
    heading (the last occurrence wins), and it keeps its first position.
   */
  lemma LastHeadingWins<T>(pre: seq<LineKind>, name: string, post: seq<LineKind>, mk: (Bullet, string) -> T)
    requires NoHeadings(post)
    ensures var before := ParseFrom(Initial(), pre, mk).sections;
            var after := ParseFrom(Initial(), pre + [Heading(name)] + post, mk);
            && after.current == Some(name)
            && after.sections.keys == (if name in before.items then before.keys else before.keys + [name])
            && after.sections.items == before.items[name := ItemsUnder(post, mk, name)]
  {
    var afterHeading := ParseFrom(Initial(), pre + [Heading(name)], mk);
    assert (pre + [Heading(name)])[..|pre|] == pre;
    ParseFromAppend(Initial(), pre + [Heading(name)], post, mk);
    assert afterHeading == Step(ParseFrom(Initial(), pre, mk), Heading(name), mk);
    BulletsAppend(afterHeading, post, mk);
    assert afterHeading.sections.items[name] == [];
    assert [] + ItemsUnder(post, mk, name) == ItemsUnder(post, mk, name);
  }

  /** Every item the parser files under label `k` was built by `mk` with that label. */
  lemma {:induction false} ItemsCarryTheirLabel<T>(lines: seq<LineKind>, mk: (Bullet, string) -> T, k: string, x: T)
    requires k in ParseFrom(Initial(), lines, mk).sections.items
    requires x in ParseFrom(Initial(), lines, mk).sections.items[k]
    ensures exists b :: x == mk(b, k)
  {
    if lines != [] {
      var prev := ParseFrom(Initial(), lines[..|lines| - 1], mk);
      match lines[|lines| - 1]
      case Heading(name) =>
        if k != name {
          ItemsCarryTheirLabel(lines[..|lines| - 1], mk, k, x);
        }
      case Item(b) =>
        if prev.current.Some? && prev.current.value == k && x !in prev.sections.items[k] {
          assert x == mk(b, k);
        } else {
          ItemsCarryTheirLabel(lines[..|lines| - 1], mk, k, x);
        }
      case Other =>
        ItemsCarryTheirLabel(lines[..|lines| - 1], mk, k, x);
    }
  }
}
