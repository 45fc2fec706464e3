/** The recursive page renderer: `SectionContent` and `SectionComponent`.
    A section tree is turned into an abstract view tree that keeps the
    rendering decisions (heading level, full-height layout, description
    segments, bullet links, which entries become nested sections and
    which of those are wrapped in a link) and drops the markup. */
module Sections {
  import opened Wrappers
  import opened UrlText

  /** An entry of a section's `bullet-points` record. */
  datatype BulletPoint = BulletPoint(text: string, href: Option<string>)

  /** A node of the content document. `bulletPoints` holds the values of the
      `bullet-points` record in `Object.values` order; `entries` holds the
      node's other properties (the `section-<n>` children among them) in
      `Object.entries` order. The five named properties can never pass the
      child filter, since none of their keys starts with `section-`. */
  datatype Section = Section(
    background: Option<string>,
    title: string,
    description: Option<string>,
    bulletPoints: Option<seq<BulletPoint>>,
    href: Option<string>,
    entries: seq<Entry>)

  datatype Entry = Entry(key: string, value: Value)

  /** A property value: an object (read as a nested section) or anything
      whose `typeof` is not `'object'` (a string, a number, a boolean). */
  datatype Value = Nested(section: Section) | Scalar

  /** A rendered list item: the bullet's text and, when it has one, its link. */
  datatype BulletItem = BulletItem(text: string, link: Option<string>)

  /** What `SectionContent` shows. */
  datatype ContentView = ContentView(
    level: nat,
    title: string,
    backgroundImage: Option<string>,
    fullHeight: bool,
    description: Option<seq<Segment>>,
    bullets: Option<seq<BulletItem>>)

  /** What `SectionComponent` shows: the content, then the nested sections. */
  datatype SectionView = SectionView(content: ContentView, children: seq<ChildView>)

  /** A nested section: its key, whether it carries the top-level spacing,
      the link it is wrapped in (if any) and its own view. */
  datatype ChildView = ChildView(key: string, spaced: bool, link: Option<string>, view: SectionView)

  const MaxLevel: nat := 6
  const DefaultBackground := "background.webp"
  const ChildPrefix := "section-"

  /** JavaScript truthiness of an optional string: present and not empty. */
  predicate Truthy(s: Option<string>)
  {
    s.Some? && s.value != []
  }

  /** `Math.min`. */
  function Min(a: int, b: int): int
  {
    if a < b then a else b
  }

  /** The link shown for an optional `href`: only a truthy one gives a link. */
  function Link(href: Option<string>): (r: Option<string>)
    ensures r.Some? <==> Truthy(href)
    ensures r.Some? ==> r == href
  {
    if Truthy(href) then href else None
  }

  /** `sub` occurs in `s` at position `i`. */
  predicate OccursAt(s: string, sub: string, i: nat)
  {
    i + |sub| <= |s| && s[i..i + |sub|] == sub
  }

  /** `String.prototype.includes`, searching from position `i` on. */
  function IncludesFrom(s: string, sub: string, i: nat): (r: bool)
    requires i <= |s|
    ensures r <==> exists j: nat :: i <= j && OccursAt(s, sub, j)
    decreases |s| - i
  {
    if i + |sub| > |s| then false
    else OccursAt(s, sub, i) || IncludesFrom(s, sub, i + 1)
  }

  /** `hasCustomBackground`: a truthy background that is not the default image. */
  predicate HasCustomBackground(background: Option<string>)
  {
    Truthy(background) && !IncludesFrom(background.value, DefaultBackground, 0)
  }

  /** The bullet list, in the order of the record's values. */
  function RenderBullets(points: seq<BulletPoint>): (r: seq<BulletItem>)
    ensures |r| == |points|
    ensures forall i :: 0 <= i < |r| ==> r[i].text == points[i].text && r[i].link == Link(points[i].href)
  {
    if points == [] then []
    else [BulletItem(points[0].text, Link(points[0].href))] + RenderBullets(points[1..])
  }

  /** `SectionContent`: heading, optional background, description and bullets. */
  function RenderContent(section: Section, level: nat): ContentView
  {
    ContentView(
      level,
      section.title,
      if Truthy(section.background) then section.background else None,
      HasCustomBackground(section.background),
      if Truthy(section.description) then Some(Tokenize(section.description.value)) else None,
      if section.bulletPoints.Some? then Some(RenderBullets(section.bulletPoints.value)) else None)
  }

  /** The heading level handed to a nested section. */
  function ChildLevel(level: nat): nat
  {
    Min(level + 1, MaxLevel)
  }

  /** The filter of the child walk: a `section-` key holding an object. */
  predicate IsChildEntry(e: Entry)
  {
    PrefixAt(e.key, 0, ChildPrefix) && e.value.Nested?
  }

  /** `SectionComponent`: the content of the section, then its nested sections. */
  function RenderSection(section: Section, level: nat, isNested: bool): SectionView
    decreases section, 1
  {
    SectionView(RenderContent(section, level), RenderEntries(section.entries, level, isNested))
  }

  /** The `Object.entries(section).map(...)` of `SectionComponent`: an entry
      that passes the filter becomes a nested section one level deeper,
      wrapped in a link when its `href` is truthy; any other entry renders
      nothing. */
  function RenderEntries(entries: seq<Entry>, level: nat, isNested: bool): seq<ChildView>
    decreases entries, 0
  {
    if entries == [] then []
    else
      var e := entries[0];
      (if IsChildEntry(e)
       then [ChildView(e.key, !isNested, Link(e.value.section.href),
                       RenderSection(e.value.section, ChildLevel(level), true))]
       else [])
      + RenderEntries(entries[1..], level, isNested)
  }

  /** The page: the root section at the default level 1, not nested. */
  function Page(root: Section): SectionView
  {
    RenderSection(root, 1, false)
  }

  /** The entries that pass the child filter, in order. */
  function ChildEntries(entries: seq<Entry>): (r: seq<Entry>)
    ensures forall i :: 0 <= i < |r| ==> IsChildEntry(r[i])
  {
    if entries == [] then []
    else (if IsChildEntry(entries[0]) then [entries[0]] else []) + ChildEntries(entries[1..])
  }

  /** An entry is kept by the filter iff it is an entry that passes it. */
  lemma {:induction false} ChildEntriesMembers(entries: seq<Entry>)
    ensures forall e :: e in ChildEntries(entries) <==> e in entries && IsChildEntry(e)
  {
    if entries != [] {
      ChildEntriesMembers(entries[1..]);
      assert entries == [entries[0]] + entries[1..];
    }
  }

  /** Entries none of which passes the filter keep nothing. */
  lemma {:induction false} NoChildEntries(entries: seq<Entry>)
    requires forall e :: e in entries ==> !IsChildEntry(e)
    ensures ChildEntries(entries) == []
  {
    if entries != [] {
      assert entries[0] in entries;
      assert forall e :: e in entries[1..] ==> e in entries;
      NoChildEntries(entries[1..]);
    }
  }

  /** The filter keeps the order of the entries. */
  lemma {:induction false} ChildEntriesAppend(a: seq<Entry>, b: seq<Entry>)
    ensures ChildEntries(a + b) == ChildEntries(a) + ChildEntries(b)
  {
    if a == [] {
      assert a + b == b;
    } else {
      var head := if IsChildEntry(a[0]) then [a[0]] else [];
      ChildEntriesAppend(a[1..], b);
      assert (a + b)[0] == a[0];
      assert (a + b)[1..] == a[1..] + b;
      assert ChildEntries(a + b) == head + (ChildEntries(a[1..]) + ChildEntries(b));
      assert ChildEntries(a) == head + ChildEntries(a[1..]);
    }
  }

  /** The rendered children are exactly the entries that pass the filter,
      in entry order, each one level deeper and wrapped in its link. */
  lemma {:induction false} RenderEntriesFollow(entries: seq<Entry>, level: nat, isNested: bool)
    ensures var r := RenderEntries(entries, level, isNested);
            var kids := ChildEntries(entries);
            |r| == |kids|
            && forall i :: 0 <= i < |r| ==>
                 r[i] == ChildView(kids[i].key, !isNested, Link(kids[i].value.section.href),
                                   RenderSection(kids[i].value.section, ChildLevel(level), true))
  {
    if entries != [] {
      RenderEntriesFollow(entries[1..], level, isNested);
    }
  }

  /** Rendering the children of a concatenation of entry lists concatenates
      the rendered children. */
  lemma {:induction false} RenderEntriesAppend(a: seq<Entry>, b: seq<Entry>, level: nat, isNested: bool)
    ensures RenderEntries(a + b, level, isNested) == RenderEntries(a, level, isNested) + RenderEntries(b, level, isNested)
  {
    if a == [] {
      assert a + b == b;
    } else {
      var e := a[0];
      var head := if IsChildEntry(e)
                  then [ChildView(e.key, !isNested, Link(e.value.section.href),
                                  RenderSection(e.value.section, ChildLevel(level), true))]
                  else [];
      RenderEntriesAppend(a[1..], b, level, isNested);
      assert (a + b)[0] == a[0];
      assert (a + b)[1..] == a[1..] + b;
      assert RenderEntries(a + b, level, isNested)
          == head + (RenderEntries(a[1..], level, isNested) + RenderEntries(b, level, isNested));
      assert RenderEntries(a, level, isNested) == head + RenderEntries(a[1..], level, isNested);
    }
  }

  /** An entry that fails the filter contributes nothing, wherever it stands. */
  lemma NonChildEntryIgnored(a: seq<Entry>, e: Entry, b: seq<Entry>, level: nat, isNested: bool)
    requires !IsChildEntry(e)
    ensures RenderEntries(a + [e] + b, level, isNested) == RenderEntries(a + b, level, isNested)
  {
    RenderEntriesAppend(a + [e], b, level, isNested);
    RenderEntriesAppend(a, [e], level, isNested);
    RenderEntriesAppend(a, b, level, isNested);
    assert RenderEntries([e], level, isNested) == [];
  }

  /** What `SectionContent` shows, in the terms the source decides it:
      the given level and the title; the full-height layout exactly for a
      non-empty background without `background.webp` in it; the description
      (when truthy) split losslessly into text and URL segments; the bullets
      (when the record is present) in order, each linked iff its `href` is
      truthy. */
  lemma ContentFacts(section: Section, level: nat)
    ensures var v := RenderContent(section, level);
            v.level == level && v.title == section.title
            && (v.fullHeight <==>
                  section.background.Some? && section.background.value != []
                  && forall j: nat :: !OccursAt(section.background.value, DefaultBackground, j))
            && (v.backgroundImage.Some? <==> Truthy(section.background))
            && (v.backgroundImage.Some? ==> v.backgroundImage == section.background)
            && (v.description.Some? <==> Truthy(section.description))
            && (v.description.Some? ==>
                  Concat(v.description.value) == section.description.value
                  && Tiles(section.description.value, 0, v.description.value))
            && (v.bullets.Some? <==> section.bulletPoints.Some?)
            && (v.bullets.Some? ==>
                  |v.bullets.value| == |section.bulletPoints.value|
                  && forall i :: 0 <= i < |v.bullets.value| ==>
                       v.bullets.value[i].text == section.bulletPoints.value[i].text
                       && (v.bullets.value[i].link.Some? <==> Truthy(section.bulletPoints.value[i].href))
                       && (v.bullets.value[i].link.Some? ==> v.bullets.value[i].link == section.bulletPoints.value[i].href))
  {
    if Truthy(section.description) {
      TokenizeProperties(section.description.value);
      TokenizeCharacterized(section.description.value, Tokenize(section.description.value));
    }
  }

  /** A section with no description (or an empty one), no bullet points and
      no children shows no description, no bullet list and no children: only
      its heading. A truthy background still applies. */
  lemma HeadingOnly(section: Section, level: nat, isNested: bool)
    requires !Truthy(section.description) && section.bulletPoints.None?
    requires forall e :: e in section.entries ==> !IsChildEntry(e)
    ensures var v := RenderSection(section, level, isNested);
            v.content.level == level && v.content.title == section.title
            && v.content.description.None? && v.content.bullets.None? && v.children == []
            && (v.content.backgroundImage.Some? <==> Truthy(section.background))
  {
    RenderEntriesFollow(section.entries, level, isNested);
    NoChildEntries(section.entries);
  }

  /** The heading levels of a view tree follow the depth: depth `d` is shown
      at level `min(d + 1, 6)`. */
  ghost predicate LevelsFollowDepth(v: SectionView, depth: nat)
    decreases v
  {
    v.content.level == Min(depth + 1, MaxLevel)
    && forall c :: c in v.children ==> LevelsFollowDepth(c.view, depth + 1)
  }

  /** Every heading of a view tree is one of `h1` to `h6`. */
  ghost predicate LevelsInRange(v: SectionView)
    decreases v
  {
    1 <= v.content.level <= MaxLevel
    && forall c :: c in v.children ==> LevelsInRange(c.view)
  }

  /** A section rendered at the level of depth `d` has every descendant at
      the level of its own depth, however deep the tree is. */
  lemma {:induction false} SectionLevels(section: Section, depth: nat, isNested: bool)
    ensures LevelsFollowDepth(RenderSection(section, Min(depth + 1, MaxLevel), isNested), depth)
    decreases section
  {
    var level := Min(depth + 1, MaxLevel);
    var v := RenderSection(section, level, isNested);
    var kids := ChildEntries(section.entries);
    RenderEntriesFollow(section.entries, level, isNested);
    forall c | c in v.children
      ensures LevelsFollowDepth(c.view, depth + 1)
    {
      var i :| 0 <= i < |v.children| && v.children[i] == c;
      var child := kids[i].value.section;
      ChildEntriesMembers(section.entries);
      assert kids[i] in section.entries;
      assert ChildLevel(level) == Min(depth + 2, MaxLevel);
      SectionLevels(child, depth + 1, true);
    }
  }

  /** Levels that follow the depth are all between 1 and 6. */
  lemma {:induction false} DepthLevelsInRange(v: SectionView, depth: nat)
    requires LevelsFollowDepth(v, depth)
    ensures LevelsInRange(v)
    decreases v
  {
    forall c | c in v.children
      ensures LevelsInRange(c.view)
    {
      DepthLevelsInRange(c.view, depth + 1);
    }
  }

  /** The page shows its root at level 1, every section at the level of its
      depth, and only headings `h1` to `h6`. */
  lemma PageLevels(root: Section)
    ensures LevelsFollowDepth(Page(root), 0)
    ensures LevelsInRange(Page(root))
  {
    SectionLevels(root, 0, false);
    DepthLevelsInRange(Page(root), 0);
  }
}
