/**
 * build_site.py: pick the latest report folder, turn every report of that
 * day into a category block of news cards, in file-name order, and fall
 * back to a "no news" placeholder when no file yields a card.  The page is
 * modelled by its fields; the HTML markup around them is not.
 */
module BuildSite {
  import opened Wrappers
  import opened Text
  import opened ReportSections

  // ---------------------------------------------------------------------
  // Python's string order
  // ---------------------------------------------------------------------

  /** `a <= b` on Python strings: code point by code point, a prefix first. */
  predicate LexLe(a: string, b: string)
    decreases |a|
  {
    a == [] || (b != [] && (a[0] < b[0] || (a[0] == b[0] && LexLe(a[1..], b[1..]))))
  }

  lemma {:induction false} LexLeTotal(a: string, b: string)
    ensures LexLe(a, b) || LexLe(b, a)
    decreases |a|
  {
    if a != [] && b != [] && a[0] == b[0] {
      LexLeTotal(a[1..], b[1..]);
    }
  }

  lemma {:induction false} LexLeTransitive(a: string, b: string, c: string)
    requires LexLe(a, b) && LexLe(b, c)
    ensures LexLe(a, c)
    decreases |a|
  {
    if a != [] && a[0] == b[0] && b[0] == c[0] {
      LexLeTransitive(a[1..], b[1..], c[1..]);
    }
  }

  lemma {:induction false} LexLeAntisymmetric(a: string, b: string)
    requires LexLe(a, b) && LexLe(b, a)
    ensures a == b
    decreases |a|
  {
    if a != [] {
      LexLeAntisymmetric(a[1..], b[1..]);
      assert a == [a[0]] + a[1..] && b == [b[0]] + b[1..];
    }
  }

  /**
   * get_latest_report_date(): the first of the folder names sorted in
   * reverse, i.e. the greatest one; `None` when there is no folder.
   */
  function LatestReportDate(dates: seq<string>): (r: Option<string>)
    ensures r.None? <==> dates == []
    ensures r.Some? ==> r.value in dates && forall d :: d in dates ==> LexLe(d, r.value)
  {
    if dates == [] then None
    else
      var rest := LatestReportDate(dates[1..]);
      if rest.None? then
        assert dates == [dates[0]];
        LexLeTotal(dates[0], dates[0]);
        Some(dates[0])
      else if LexLe(dates[0], rest.value) then
        assert forall d :: d in dates ==> d == dates[0] || d in dates[1..];
        rest
      else
        LexLeTotal(dates[0], rest.value);
        assert forall d :: d in dates[1..] ==> LexLe(d, dates[0]) by {
          forall d | d in dates[1..] ensures LexLe(d, dates[0]) {
            LexLeTransitive(d, rest.value, dates[0]);
          }
        }
        LexLeTotal(dates[0], dates[0]);
        assert forall d :: d in dates ==> d == dates[0] || d in dates[1..];
        Some(dates[0])
  }

  // ---------------------------------------------------------------------
  // Cards
  // ---------------------------------------------------------------------

  datatype Card = Card(tool: string, summary: string, why: string, url: string)
  datatype CategoryBlock = CategoryBlock(title: string, cards: seq<Card>)

  const DefaultUrl := "#"
  const DefaultWhy := "Check details in post."
  const DefaultTitle := "Uncategorized"

  /** The site's own "no news" test; its last clause strips the body again. */
  predicate SkipsCard(body: string)
  {
    Contains(body, "Updates not found") || Contains(body, "No significant news") || Strip(body) == ""
  }

  /**
   * One card per section that has news.  The URL falls back to "#", the
   * summary to the whole body with its line breaks turned into "<br>", and
   * the reason to "Check details in post.".  Either way the summary is a
   * single line, and a labelled summary has no "**" left.
   */
  function CardOf(sec: Section): (r: Option<Card>)
    ensures r.Some? <==> !SkipsCard(sec.body)
    ensures r.Some? ==> r.value.tool == sec.tool && '\n' !in r.value.summary && '\n' !in r.value.why
    ensures r.Some? ==>
      var u, w, sm := SearchField(sec.body, "**URL**"), SearchField(sec.body, "**Why**"), SearchField(sec.body, "**Summary**");
      && r.value.url == (if u.Some? then Strip(u.value) else DefaultUrl)
      && r.value.why == (if w.Some? then Strip(w.value) else DefaultWhy)
      && r.value.summary == (if sm.Some? then ReplaceAll(Strip(sm.value), "**", "") else ReplaceAll(sec.body, "\n", "<br>"))
      && (sm.Some? ==> !Contains(r.value.summary, "**"))
  {
    if SkipsCard(sec.body) then None
    else
      Some(Card(sec.tool, SummaryOf(sec.body), WhyOf(sec.body), UrlOf(sec.body)))
  }

  /** The labelled URL, or "#". */
  function UrlOf(body: string): string
  {
    match SearchField(body, "**URL**")
    case Some(u) => Strip(u)
    case None => DefaultUrl
  }

  /** The labelled reason, or the default one; a single line either way. */
  function WhyOf(body: string): (why: string)
    ensures '\n' !in why
  {
    match SearchField(body, "**Why**")
    case Some(w) => StripKeepsOut(w, '\n'); Strip(w)
    case None => DefaultWhy
  }

  /**
   * The card summary: the labelled line without "**", or the body as one
   * "<br>"-joined line. A single line either way; a labelled one has no
   * "**" left.
   */
  function SummaryOf(body: string): (summary: string)
    ensures '\n' !in summary
    ensures SearchField(body, "**Summary**").Some? ==> !Contains(summary, "**")
  {
    match SearchField(body, "**Summary**")
    case Some(sm) =>
      UnboldGone(Strip(sm));
      StripKeepsOut(sm, '\n');
      ReplaceAllKeepsOut(Strip(sm), "**", "", '\n');
      ReplaceAll(Strip(sm), "**", "")
    case None =>
      ReplaceCharGone(body, "\n", "<br>");
      ReplaceAll(body, "\n", "<br>")
  }

  /**
   * The defaults apply when a field is not found, in particular when its
   * label does not occur in the body at all.
   */
  lemma CardDefaults(sec: Section)
    requires !SkipsCard(sec.body)
    ensures SearchField(sec.body, "**URL**").None? || !Contains(sec.body, "**URL**") ==>
      CardOf(sec).value.url == DefaultUrl
    ensures SearchField(sec.body, "**Why**").None? || !Contains(sec.body, "**Why**") ==>
      CardOf(sec).value.why == DefaultWhy
    ensures SearchField(sec.body, "**Summary**").None? || !Contains(sec.body, "**Summary**") ==>
      CardOf(sec).value.summary == ReplaceAll(sec.body, "\n", "<br>")
  {
    if !Contains(sec.body, "**URL**") {
      SearchFieldNeedsLabel(sec.body, "**URL**");
    }
    if !Contains(sec.body, "**Why**") {
      SearchFieldNeedsLabel(sec.body, "**Why**");
    }
    if !Contains(sec.body, "**Summary**") {
      SearchFieldNeedsLabel(sec.body, "**Summary**");
    }
  }

  /**
   * The site skips exactly the sections the X and LINE parsers skip: a
   * section body is already stripped, so stripping it again changes nothing.
   */
  lemma SkipsSameSectionsAsPosters(section: string)
    ensures SkipsCard(ParseSection(section).body) <==> IsNoNewsBody(ParseSection(section).body)
  {
    var lines := Split(Strip(section), '\n');
    StripIdempotent(Join("\n", lines[1..]));
  }

  /** The cards of the given sections: one for each section with news, in section order (see CardsOfSnoc). */
  function CardsOf(secs: seq<Section>): (cards: seq<Card>)
    ensures |cards| <= |secs|
    ensures forall c :: c in cards ==> exists k :: 0 <= k < |secs| && CardOf(secs[k]) == Some(c)
    ensures forall k :: 0 <= k < |secs| && !SkipsCard(secs[k].body) ==> CardOf(secs[k]).value in cards
  {
    MapSomes(secs, CardOf)
  }

  /** One more section appends its card, if it has news, after the others'. */
  lemma CardsOfSnoc(secs: seq<Section>, sec: Section)
    ensures CardsOf(secs + [sec]) == CardsOf(secs) + (if !SkipsCard(sec.body) then [CardOf(sec).value] else [])
  {
    MapSomesSnoc(secs, sec, CardOf);
  }

  /**
   * parse_markdown_file(): the category block of one report, titled by the
   * report's category or "Uncategorized"; no block (the empty string) when
   * no section yields a card.
   */
  function ParseMarkdownFile(content: string): (r: Option<CategoryBlock>)
    ensures r.None? <==> CardsOf(ParsedSections(content)) == []
    ensures r.Some? ==> r.value.cards == CardsOf(ParsedSections(content)) && r.value.cards != []
    ensures r.Some? ==> r.value.title == CategoryCapture(content).GetOr(DefaultTitle)
  {
    var cards := CardsOf(ParsedSections(content));
    if cards == [] then None else Some(CategoryBlock(CategoryCapture(content).GetOr(DefaultTitle), cards))
  }

  /** A report yields a block exactly when one of its sections has news. */
  lemma BlockIffSomeNews(content: string)
    ensures ParseMarkdownFile(content).Some? <==>
      exists sec :: sec in ParsedSections(content) && !SkipsCard(sec.body)
  {
    MapSomesEmpty(ParsedSections(content), CardOf);
  }

  // ---------------------------------------------------------------------
  // The page
  // ---------------------------------------------------------------------

  datatype MdFile = MdFile(path: string, content: string)

  predicate SortedByPath(fs: seq<MdFile>)
  {
    forall i, j :: 0 <= i < j < |fs| ==> LexLe(fs[i].path, fs[j].path)
  }

  function InsertByPath(f: MdFile, fs: seq<MdFile>): (r: seq<MdFile>)
    requires SortedByPath(fs)
    ensures SortedByPath(r) && multiset(r) == multiset(fs) + multiset{f}
    decreases |fs|
  {
    if fs == [] then [f]
    else if LexLe(f.path, fs[0].path) then
      BelowHeadBelowAll(f, fs);
      ConsSorted(f, fs);
      [f] + fs
    else
      var rest := InsertByPath(f, fs[1..]);
      LexLeTotal(f.path, fs[0].path);
      HeadBelowInserted(f, fs, rest);
      ConsSorted(fs[0], rest);
      assert fs == [fs[0]] + fs[1..];
      [fs[0]] + rest
  }

  /** A file whose path is no later than any path of a sorted list can lead it. */
  lemma ConsSorted(f: MdFile, fs: seq<MdFile>)
    requires SortedByPath(fs) && forall x :: x in fs ==> LexLe(f.path, x.path)
    ensures SortedByPath([f] + fs)
  {
    var r := [f] + fs;
    forall i, j | 0 <= i < j < |r| ensures LexLe(r[i].path, r[j].path) {
      assert r[j] == fs[j - 1];
      if i > 0 {
        assert r[i] == fs[i - 1];
      } else {
        assert fs[j - 1] in fs;
      }
    }
  }

  /** A path no later than the head of a sorted list is no later than any of it. */
  lemma BelowHeadBelowAll(f: MdFile, fs: seq<MdFile>)
    requires SortedByPath(fs) && fs != [] && LexLe(f.path, fs[0].path)
    ensures forall x :: x in fs ==> LexLe(f.path, x.path)
  {
    forall x | x in fs ensures LexLe(f.path, x.path) {
      var j :| 0 <= j < |fs| && fs[j] == x;
      if j > 0 {
        LexLeTransitive(f.path, fs[0].path, fs[j].path);
      }
    }
  }

  /** The head of a sorted list precedes everything of its tail with a later file inserted. */
  lemma HeadBelowInserted(f: MdFile, fs: seq<MdFile>, rest: seq<MdFile>)
    requires SortedByPath(fs) && fs != [] && LexLe(fs[0].path, f.path)
    requires multiset(rest) == multiset(fs[1..]) + multiset{f}
    ensures forall x :: x in rest ==> LexLe(fs[0].path, x.path)
  {
    forall x | x in rest ensures LexLe(fs[0].path, x.path) {
      assert x in multiset(rest);
      if x != f {
        assert x in multiset(fs[1..]);
        var j :| 0 <= j < |fs[1..]| && fs[1..][j] == x;
        assert fs[j + 1] == x;
      }
    }
  }

  /** `all_md_files.sort()`: the files in path order, none lost or added. */
  function SortByPath(fs: seq<MdFile>): (r: seq<MdFile>)
    ensures SortedByPath(r) && multiset(r) == multiset(fs)
  {
    if fs == [] then []
    else
      assert fs == [fs[0]] + fs[1..];
      InsertByPath(fs[0], SortByPath(fs[1..]))
  }

  datatype PageBody = NoNewsPlaceholder | Blocks(blocks: seq<CategoryBlock>)
  datatype Page = Page(date: string, body: PageBody)

  /**
   * The category blocks of the files: every block is the block of one of
   * the files, every file that yields a block contributes it, and they come
   * in the order of the files (see BlocksOfSnoc).
   */
  function BlocksOf(files: seq<MdFile>): (blocks: seq<CategoryBlock>)
    ensures |blocks| <= |files|
    ensures forall b :: b in blocks ==> b.cards != []
    ensures forall b :: b in blocks ==> exists k :: 0 <= k < |files| && BlockOf(files[k]) == Some(b)
    ensures forall k :: 0 <= k < |files| && BlockOf(files[k]).Some? ==> BlockOf(files[k]).value in blocks
  {
    MapSomes(files, BlockOf)
  }

  /** One more file appends its block, if it yields one, after the others'. */
  lemma BlocksOfSnoc(files: seq<MdFile>, f: MdFile)
    ensures BlocksOf(files + [f]) == BlocksOf(files) + (if BlockOf(f).Some? then [BlockOf(f).value] else [])
  {
    MapSomesSnoc(files, f, BlockOf);
  }

  /** The block of one report file: parse_markdown_file() on its content. */
  function BlockOf(f: MdFile): (r: Option<CategoryBlock>)
    ensures r.Some? <==> exists sec :: sec in ParsedSections(f.content) && !SkipsCard(sec.body)
  {
    BlockIffSomeNews(f.content);
    ParseMarkdownFile(f.content)
  }

  /**
   * build(): nothing when there is no report folder; otherwise the page of
   * the latest date, built from that folder's reports (`filesIn(date)`) in
   * path order.
   */
  function Build(dates: seq<string>, filesIn: string -> seq<MdFile>): (r: Option<Page>)
    ensures r.None? <==> dates == []
    ensures r.Some? ==> Some(r.value.date) == LatestReportDate(dates)
    ensures r.Some? ==> r.value.body == NoNewsPlaceholder || r.value.body.blocks != []
    ensures r.Some? ==>
      var blocks := BlocksOf(SortByPath(filesIn(r.value.date)));
      && (r.value.body == NoNewsPlaceholder <==> blocks == [])
      && (r.value.body.Blocks? ==> r.value.body.blocks == blocks)
  {
    match LatestReportDate(dates)
    case None => None
    case Some(d) =>
      var blocks := BlocksOf(SortByPath(filesIn(d)));
      Some(Page(d, if blocks == [] then NoNewsPlaceholder else Blocks(blocks)))
  }

  /** No file yields a block exactly when each of them has no card. */
  lemma NoBlocksIffNoCards(files: seq<MdFile>)
    ensures BlocksOf(files) == [] <==> forall f :: f in files ==> BlockOf(f).None?
  {
    MapSomesEmpty(files, BlockOf);
  }

  lemma SameElements(a: seq<MdFile>, b: seq<MdFile>)
    requires multiset(a) == multiset(b)
    ensures forall f :: f in a <==> f in b
  {
    forall f ensures f in a <==> f in b {
      assert f in a <==> f in multiset(a);
      assert f in b <==> f in multiset(b);
    }
  }

  /** The placeholder is shown exactly when no report of the day yields a card. */
  lemma PlaceholderIffNoCards(dates: seq<string>, filesIn: string -> seq<MdFile>)
    requires dates != []
    ensures Build(dates, filesIn).value.body == NoNewsPlaceholder <==>
      forall f :: f in filesIn(LatestReportDate(dates).value) ==> ParseMarkdownFile(f.content).None?
  {
    var d := LatestReportDate(dates).value;
    var files := SortByPath(filesIn(d));
    NoBlocksIffNoCards(files);
    SameElements(files, filesIn(d));
  }
}
