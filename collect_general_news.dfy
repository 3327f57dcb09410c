/**
 * collect_general_news.py: the entries of a fixed list of RSS feeds are kept
 * when they carry a date from the last 24 hours, a link not met before in
 * the run, and an AI keyword in their title or summary; every kept article
 * (or what the translation step makes of it) is saved as one Markdown file.
 * Feed download, date parsing, `str.isalnum`, the translation step and the
 * printing of a date are parameters.
 */
module CollectGeneralNews {
  import opened Wrappers
  import opened Text

  // ---------------------------------------------------------------------
  // Keyword relevance (is_ai_news)
  // ---------------------------------------------------------------------

  const AiKeywords: seq<string> := [
    "AI", "artificial intelligence", "machine learning", "deep learning", "neural network",
    "transformer", "generative AI", "LLM", "GPT", "Gemini", "Claude", "Copilot",
    "Midjourney", "Stable Diffusion", "OpenAI", "Anthropic", "DeepMind", "xAI",
    "NVIDIA", "Hugging Face", "GPU", "robotics", "autonomous", "agent",
    "生成AI", "人工知能", "機械学習", "大規模言語モデル"
  ]

  /** `any(k.lower() in content for k in keys)`. */
  function AnyKeyword(content: string, keys: seq<string>): bool
  {
    keys != [] && (Contains(content, Lower(keys[0])) || AnyKeyword(content, keys[1..]))
  }

  lemma {:induction false} AnyKeywordIff(content: string, keys: seq<string>)
    ensures AnyKeyword(content, keys) <==> exists k :: 0 <= k < |keys| && Contains(content, Lower(keys[k]))
  {
    if keys != [] {
      AnyKeywordIff(content, keys[1..]);
      assert forall k :: 1 <= k < |keys| ==> keys[k] == keys[1..][k - 1];
      if exists k :: 0 <= k < |keys| && Contains(content, Lower(keys[k])) {
        var k :| 0 <= k < |keys| && Contains(content, Lower(keys[k]));
        if k > 0 {
          assert Contains(content, Lower(keys[1..][k - 1]));
        }
      }
    }
  }

  /** is_ai_news. */
  function IsAiNews(title: string, summary: string): bool
  {
    AnyKeyword(Lower(title + " " + summary), AiKeywords)
  }

  /** An entry is AI news exactly when some keyword, lower-cased, occurs in the lower-cased "title summary". */
  lemma IsAiNewsIff(title: string, summary: string)
    ensures IsAiNews(title, summary) <==> exists k :: 0 <= k < |AiKeywords| && Contains(Lower(title + " " + summary), Lower(AiKeywords[k]))
  {
    AnyKeywordIff(Lower(title + " " + summary), AiKeywords);
  }

  lemma LowerAppend(a: string, b: string)
    ensures Lower(a + b) == Lower(a) + Lower(b)
  {
    assert forall i :: 0 <= i < |a| ==> (a + b)[i] == a[i];
    assert forall i :: |a| <= i < |a| + |b| ==> (a + b)[i] == b[i - |a|];
  }

  /** A keyword in the title alone is enough, whatever the summary says. */
  lemma TitleKeywordSuffices(title: string, summary: string, k: nat)
    requires k < |AiKeywords| && Contains(Lower(title), Lower(AiKeywords[k]))
    ensures IsAiNews(title, summary)
  {
    var p := Lower(AiKeywords[k]);
    LowerAppend(title, " " + summary);
    AppendAssoc(title, " ", summary);
    ContainsIff(Lower(title), p);
    var i :| OccursAt(Lower(title), p, i);
    var content := Lower(title) + Lower(" " + summary);
    assert content[i..i + |p|] == Lower(title)[i..i + |p|];
    assert OccursAt(content, p, i);
    ContainsIff(content, p);
    IsAiNewsIff(title, summary);
  }

  /**
   * The keywords are matched as substrings, not as words: "AI" lower-cased
   * is found inside "rain", so a headline about the weather counts as AI
   * news.
   */
  lemma KeywordInsideWord()
    ensures IsAiNews("Rain", "")
  {
    assert Lower("Rain") == "rain";
    assert Lower(AiKeywords[0]) == "ai";
    assert OccursAt("rain", "ai", 1);
    ContainsIff("rain", "ai");
    TitleKeywordSuffices("Rain", "", 0);
  }

  // ---------------------------------------------------------------------
  // Feed entries
  // ---------------------------------------------------------------------

  /**
   * A date as the date parser gives it: wall-clock seconds and, when the
   * text names one, the offset from UTC in seconds.
   */
  datatype Stamp = Stamp(local: int, offset: Option<int>)

  /** The moment a date denotes, in seconds since the epoch (UTC). */
  function Instant(d: Stamp): int
  {
    d.local - d.offset.GetOr(0)
  }

  /** Collected articles are at most this old (24 hours, in seconds). */
  const Window := 24 * 60 * 60

  /** A feed entry; each attribute may be absent. */
  datatype Entry = Entry(published: Option<string>, updated: Option<string>, title: Option<string>,
                         summary: Option<string>, link: Option<string>)

  datatype Source = Source(name: string, region: string)
  datatype Feed = Feed(source: Source, entries: seq<Entry>)

  /** An entry together with the feed it came from. */
  datatype Sourced = Sourced(source: Source, entry: Entry)

  datatype Article = Article(title: string, source: string, region: string, summary: string, url: string, published: Stamp)

  /** `published` when the entry has it, `updated` otherwise. */
  function DateText(e: Entry): (r: Option<string>)
    ensures e.published.Some? ==> r == e.published
    ensures e.published.None? ==> r == e.updated
  {
    if e.published.Some? then e.published else e.updated
  }

  /**
   * The entry's date, a date without an offset being taken as UTC; None when
   * the entry has no date text, an empty one, or one that does not parse.
   */
  function EntryDate(e: Entry, parse: string -> Option<Stamp>): (r: Option<Stamp>)
    ensures r.Some? <==> DateText(e).Some? && DateText(e).value != "" && parse(DateText(e).value).Some?
    ensures r.Some? ==> var d := parse(DateText(e).value).value;
      r.value.offset.Some? && r.value.local == d.local && (d.offset.Some? ==> r.value == d)
  {
    match DateText(e)
    case None => None
    case Some(text) =>
      if text == "" then None
      else
        match parse(text)
        case None => None
        case Some(d) => Some(if d.offset.None? then Stamp(d.local, Some(0)) else d)
  }

  /** A date without an offset denotes its wall-clock time read as UTC. */
  lemma NaiveDateIsUtc(e: Entry, parse: string -> Option<Stamp>)
    requires EntryDate(e, parse).Some? && parse(DateText(e).value).value.offset.None?
    ensures Instant(EntryDate(e, parse).value) == parse(DateText(e).value).value.local
  {
  }

  /** The entry has a date and it is not older than `now` minus 24 hours. */
  predicate Recent(x: Sourced, now: int, parse: string -> Option<Stamp>)
  {
    EntryDate(x.entry, parse).Some? && Instant(EntryDate(x.entry, parse).value) >= now - Window
  }

  function LinkOf(x: Sourced): string
  {
    x.entry.link.GetOr("")
  }

  function TitleOf(x: Sourced): string
  {
    x.entry.title.GetOr("")
  }

  function SummaryOf(x: Sourced): string
  {
    x.entry.summary.GetOr("")
  }

  function ArticleOf(x: Sourced, parse: string -> Option<Stamp>): Article
    requires EntryDate(x.entry, parse).Some?
  {
    Article(TitleOf(x), x.source.name, x.source.region, SummaryOf(x), LinkOf(x), EntryDate(x.entry, parse).value)
  }

  /** The entries of a feed, tagged with the feed. */
  function Tagged(f: Feed): (r: seq<Sourced>)
    ensures |r| == |f.entries| && forall k :: 0 <= k < |r| ==> r[k] == Sourced(f.source, f.entries[k])
  {
    seq(|f.entries|, k requires 0 <= k < |f.entries| => Sourced(f.source, f.entries[k]))
  }

  /** All entries of all feeds, feed by feed in the configured order. */
  function Stream(feeds: seq<Feed>): seq<Sourced>
  {
    if feeds == [] then [] else Stream(feeds[..|feeds| - 1]) + Tagged(feeds[|feeds| - 1])
  }

  lemma StreamStep(feeds: seq<Feed>, f: nat)
    requires f < |feeds|
    ensures Stream(feeds[..f + 1]) == Stream(feeds[..f]) + Tagged(feeds[f])
  {
    assert feeds[..f + 1][..f] == feeds[..f];
  }

  /** The links marked as seen after the entries `xs`: those of every recent entry. */
  function SeenIn(xs: seq<Sourced>, now: int, parse: string -> Option<Stamp>): set<string>
  {
    set i | 0 <= i < |xs| && Recent(xs[i], now, parse) :: LinkOf(xs[i])
  }

  /** Entry `j` of the stream is collected: it is recent, its link is new, and it is AI news. */
  predicate Kept(xs: seq<Sourced>, j: nat, now: int, parse: string -> Option<Stamp>)
    requires j < |xs|
  {
    Recent(xs[j], now, parse) && LinkOf(xs[j]) !in SeenIn(xs[..j], now, parse)
    && IsAiNews(TitleOf(xs[j]), SummaryOf(xs[j]))
  }

  /** The articles collected from the entries `xs`, in order. */
  function Selected(xs: seq<Sourced>, now: int, parse: string -> Option<Stamp>): seq<Article>
  {
    if xs == [] then []
    else if Kept(xs, |xs| - 1, now, parse) then Selected(xs[..|xs| - 1], now, parse) + [ArticleOf(xs[|xs| - 1], parse)]
    else Selected(xs[..|xs| - 1], now, parse)
  }

  /** The positions in `xs` of the collected entries. */
  function Origins(xs: seq<Sourced>, now: int, parse: string -> Option<Stamp>): seq<nat>
  {
    if xs == [] then []
    else if Kept(xs, |xs| - 1, now, parse) then Origins(xs[..|xs| - 1], now, parse) + [|xs| - 1]
    else Origins(xs[..|xs| - 1], now, parse)
  }

  /**
   * A link counts as seen once a recent entry carried it, whether or not
   * that entry was AI news: an entry is kept exactly when it is recent, AI
   * news, and no earlier recent entry has its link.
   */
  lemma KeptIff(xs: seq<Sourced>, j: nat, now: int, parse: string -> Option<Stamp>)
    requires j < |xs|
    ensures Kept(xs, j, now, parse) <==>
      Recent(xs[j], now, parse) && IsAiNews(TitleOf(xs[j]), SummaryOf(xs[j]))
      && forall i :: 0 <= i < j && Recent(xs[i], now, parse) ==> LinkOf(xs[i]) != LinkOf(xs[j])
  {
    var pre := xs[..j];
    assert forall i :: 0 <= i < j ==> pre[i] == xs[i];
    if LinkOf(xs[j]) in SeenIn(pre, now, parse) {
      var i :| 0 <= i < j && Recent(pre[i], now, parse) && LinkOf(pre[i]) == LinkOf(xs[j]);
      assert Recent(xs[i], now, parse);
    }
  }

  lemma KeptPrefix(xs: seq<Sourced>, n: nat, j: nat, now: int, parse: string -> Option<Stamp>)
    requires j < n <= |xs|
    ensures Kept(xs[..n], j, now, parse) == Kept(xs, j, now, parse)
  {
    assert xs[..n][..j] == xs[..j];
  }

  /** `org` lists, increasing, exactly the positions `j` with `marks[j]`. */
  predicate Indexes(org: seq<nat>, marks: seq<bool>)
  {
    (forall k :: 0 <= k < |org| ==> org[k] < |marks| && marks[org[k]])
    && (forall a, b :: 0 <= a < b < |org| ==> org[a] < org[b])
    && (forall j :: 0 <= j < |marks| ==> (j in org <==> marks[j]))
  }

  lemma IndexesExtend(org: seq<nat>, marks: seq<bool>, b: bool)
    requires Indexes(org, marks)
    ensures Indexes(if b then org + [|marks|] else org, marks + [b])
  {
    var marks2 := marks + [b];
    assert forall j :: 0 <= j < |marks| ==> marks2[j] == marks[j];
    if b {
      var org2 := org + [|marks|];
      assert forall k :: 0 <= k < |org| ==> org2[k] == org[k];
      forall j | 0 <= j < |marks2| ensures (j in org2 <==> marks2[j]) {
        assert j in org2 <==> j in org || j == |marks|;
      }
    } else {
      assert |marks| !in org;
    }
  }

  /** Which entries of `xs` are kept. */
  function Marks(xs: seq<Sourced>, now: int, parse: string -> Option<Stamp>): (m: seq<bool>)
    ensures |m| == |xs| && forall j :: 0 <= j < |xs| ==> m[j] == Kept(xs, j, now, parse)
  {
    seq(|xs|, j requires 0 <= j < |xs| => Kept(xs, j, now, parse))
  }

  lemma MarksStep(xs: seq<Sourced>, now: int, parse: string -> Option<Stamp>)
    requires |xs| > 0
    ensures Marks(xs, now, parse) == Marks(xs[..|xs| - 1], now, parse) + [Kept(xs, |xs| - 1, now, parse)]
  {
    var n := |xs| - 1;
    forall j | 0 <= j < n ensures Kept(xs[..n], j, now, parse) == Kept(xs, j, now, parse) {
      KeptPrefix(xs, n, j, now, parse);
    }
  }

  lemma {:induction false} OriginsIndexMarks(xs: seq<Sourced>, now: int, parse: string -> Option<Stamp>)
    ensures Indexes(Origins(xs, now, parse), Marks(xs, now, parse))
  {
    if xs != [] {
      var n := |xs| - 1;
      OriginsIndexMarks(xs[..n], now, parse);
      MarksStep(xs, now, parse);
      IndexesExtend(Origins(xs[..n], now, parse), Marks(xs[..n], now, parse), Kept(xs, n, now, parse));
    }
  }

  lemma {:induction false} SelectedFromOrigins(xs: seq<Sourced>, now: int, parse: string -> Option<Stamp>)
    ensures var sel, org := Selected(xs, now, parse), Origins(xs, now, parse);
      |sel| == |org|
      && forall k :: 0 <= k < |org| ==>
           org[k] < |xs| && Recent(xs[org[k]], now, parse) && sel[k] == ArticleOf(xs[org[k]], parse)
  {
    if xs != [] {
      var n := |xs| - 1;
      SelectedFromOrigins(xs[..n], now, parse);
      var sel0, org0 := Selected(xs[..n], now, parse), Origins(xs[..n], now, parse);
      assert forall k :: 0 <= k < |org0| ==> xs[..n][org0[k]] == xs[org0[k]];
      if Kept(xs, n, now, parse) {
        var sel, org := sel0 + [ArticleOf(xs[n], parse)], org0 + [n];
        assert forall k :: 0 <= k < |org0| ==> org[k] == org0[k] && sel[k] == sel0[k];
      }
    }
  }

  /**
   * The collected articles are the kept entries in stream order: `Origins`
   * lists exactly the kept positions, increasing, and article `k` is made
   * from the entry at `Origins[k]`.
   */
  lemma SelectedAreKeptInOrder(xs: seq<Sourced>, now: int, parse: string -> Option<Stamp>)
    ensures var sel, org := Selected(xs, now, parse), Origins(xs, now, parse);
      |sel| == |org|
      && (forall k :: 0 <= k < |org| ==> org[k] < |xs| && Kept(xs, org[k], now, parse)
                                         && sel[k] == ArticleOf(xs[org[k]], parse))
      && (forall a, b :: 0 <= a < b < |org| ==> org[a] < org[b])
      && (forall j :: 0 <= j < |xs| ==> (j in org <==> Kept(xs, j, now, parse)))
  {
    OriginsIndexMarks(xs, now, parse);
    SelectedFromOrigins(xs, now, parse);
  }

  /** No two collected articles share a URL. */
  lemma SelectedUrlsDistinct(xs: seq<Sourced>, now: int, parse: string -> Option<Stamp>)
    ensures var sel := Selected(xs, now, parse);
      forall a, b :: 0 <= a < b < |sel| ==> sel[a].url != sel[b].url
  {
    SelectedAreKeptInOrder(xs, now, parse);
    var sel := Selected(xs, now, parse);
    var org := Origins(xs, now, parse);
    forall a, b | 0 <= a < b < |sel| ensures sel[a].url != sel[b].url {
      KeptIff(xs, org[b], now, parse);
    }
  }

  /** Every collected article is recent and AI news. */
  lemma SelectedAreRecentAiNews(xs: seq<Sourced>, now: int, parse: string -> Option<Stamp>)
    ensures var sel := Selected(xs, now, parse);
      forall k :: 0 <= k < |sel| ==> Instant(sel[k].published) >= now - Window && IsAiNews(sel[k].title, sel[k].summary)
  {
    SelectedAreKeptInOrder(xs, now, parse);
  }

  /** One more entry: what is collected and which links are seen afterwards. */
  lemma SelectStep(ys: seq<Sourced>, x: Sourced, now: int, parse: string -> Option<Stamp>)
    ensures var xs := ys + [x];
      Selected(xs, now, parse) == (if Kept(xs, |ys|, now, parse) then Selected(ys, now, parse) + [ArticleOf(x, parse)] else Selected(ys, now, parse))
      && SeenIn(xs, now, parse) == (if Recent(x, now, parse) then SeenIn(ys, now, parse) + {LinkOf(x)} else SeenIn(ys, now, parse))
      && (Kept(xs, |ys|, now, parse) <==> Recent(x, now, parse) && LinkOf(x) !in SeenIn(ys, now, parse) && IsAiNews(TitleOf(x), SummaryOf(x)))
  {
    var xs := ys + [x];
    assert xs[..|ys|] == ys;
    assert forall i :: 0 <= i < |ys| ==> xs[i] == ys[i];
  }

  /**
   * The body of collect_from_rss's inner loop for one entry of `source`:
   * the article it collects, if any, and the seen links afterwards.
   */
  method ScanEntry(source: Source, entry: Entry, seen: set<string>, now: int, parse: string -> Option<Stamp>)
    returns (article: Option<Article>, seen2: set<string>)
    ensures var x := Sourced(source, entry);
      seen2 == (if Recent(x, now, parse) then seen + {LinkOf(x)} else seen)
      && article == (if Recent(x, now, parse) && LinkOf(x) !in seen && IsAiNews(TitleOf(x), SummaryOf(x))
                     then Some(ArticleOf(x, parse)) else None)
  {
    article, seen2 := None, seen;
    var pubDate := if entry.published.Some? then entry.published else entry.updated;
    var parsed: Option<Stamp> := None;
    if pubDate.Some? && pubDate.value != "" {
      parsed := parse(pubDate.value);
      if parsed.Some? && parsed.value.offset.None? {
        parsed := Some(Stamp(parsed.value.local, Some(0)));
      }
    }
    if parsed.None? {
      return;
    }
    if Instant(parsed.value) < now - Window {
      return;
    }
    var title := entry.title.GetOr("");
    var summary := entry.summary.GetOr("");
    var link := entry.link.GetOr("");
    if link in seen {
      return;
    }
    seen2 := seen + {link};
    if !IsAiNews(title, summary) {
      return;
    }
    article := Some(Article(title, source.name, source.region, summary, link, parsed.value));
  }

  /**
   * collect_from_rss's inner loop over the entries of one feed, after the
   * entries `done` of the feeds before it.
   */
  method ScanFeed(feed: Feed, ghost done: seq<Sourced>, seen: set<string>, articles: seq<Article>, now: int,
                  parse: string -> Option<Stamp>)
    returns (seen2: set<string>, articles2: seq<Article>)
    requires articles == Selected(done, now, parse) && seen == SeenIn(done, now, parse)
    ensures articles2 == Selected(done + Tagged(feed), now, parse) && seen2 == SeenIn(done + Tagged(feed), now, parse)
  {
    seen2, articles2 := seen, articles;
    var e := 0;
    assert done + Tagged(feed)[..0] == done;
    while e < |feed.entries|
      invariant e <= |feed.entries|
      invariant articles2 == Selected(done + Tagged(feed)[..e], now, parse)
      invariant seen2 == SeenIn(done + Tagged(feed)[..e], now, parse)
    {
      ghost var ys := done + Tagged(feed)[..e];
      var x := Sourced(feed.source, feed.entries[e]);
      PrefixStep(Tagged(feed), e);
      AppendAssoc(done, Tagged(feed)[..e], [x]);
      SelectStep(ys, x, now, parse);
      var article;
      article, seen2 := ScanEntry(feed.source, feed.entries[e], seen2, now, parse);
      if article.Some? {
        articles2 := articles2 + [article.value];
      }
      e := e + 1;
    }
    assert Tagged(feed)[..e] == Tagged(feed);
  }

  /**
   * The loop of collect_from_rss over the feeds, with the `seen_links` set
   * it updates: the result is `Selected` over the whole stream.
   */
  method CollectFromRss(feeds: seq<Feed>, now: int, parse: string -> Option<Stamp>) returns (articles: seq<Article>)
    ensures articles == Selected(Stream(feeds), now, parse)
  {
    articles := [];
    var seen: set<string> := {};
    var f := 0;
    while f < |feeds|
      invariant f <= |feeds|
      invariant articles == Selected(Stream(feeds[..f]), now, parse) && seen == SeenIn(Stream(feeds[..f]), now, parse)
    {
      StreamStep(feeds, f);
      seen, articles := ScanFeed(feeds[f], Stream(feeds[..f]), seen, articles, now, parse);
      f := f + 1;
    }
    assert feeds[..f] == feeds;
  }

  // ---------------------------------------------------------------------
  // Saving the reports
  // ---------------------------------------------------------------------

  /**
   * An item handed to the saving loop: a collected article as it is, or the
   * translation step's version of it with Japanese title and summary and a
   * reason.
   */
  datatype Item = Item(title: string, titleJa: Option<string>, summary: string, summaryJa: Option<string>,
                       source: string, published: string, url: string, reason: Option<string>)

  /** A collected article when the translation step is unavailable; `show` prints a date. */
  function Untranslated(a: Article, show: Stamp -> string): Item
  {
    Item(a.title, None, a.summary, None, a.source, show(a.published), a.url, None)
  }

  /** What is saved: the translation step's selection when it is available, every article otherwise. */
  function ItemsToSave(articles: seq<Article>, translate: Option<seq<Article> -> seq<Item>>, show: Stamp -> string): (r: seq<Item>)
    ensures translate.None? ==> |r| == |articles| && forall k :: 0 <= k < |r| ==> r[k] == Untranslated(articles[k], show)
  {
    match translate
    case Some(select) => select(articles)
    case None => seq(|articles|, k requires 0 <= k < |articles| => Untranslated(articles[k], show))
  }

  /** Titles are cut to this many characters in file names. */
  const TitleWidth := 50

  /** `"".join(c if c.isalnum() else "_" for c in title)[:50]`. */
  function SafeTitle(title: string, isAlnum: char -> bool): (r: string)
    ensures |r| == (if |title| < TitleWidth then |title| else TitleWidth)
    ensures forall i :: 0 <= i < |r| ==> (isAlnum(title[i]) ==> r[i] == title[i]) && (!isAlnum(title[i]) ==> r[i] == '_')
  {
    var mapped := seq(|title|, i requires 0 <= i < |title| => if isAlnum(title[i]) then title[i] else '_');
    Take(mapped, TitleWidth)
  }

  /** Every character of a safe title is alphanumeric or '_'. */
  lemma SafeTitleChars(title: string, isAlnum: char -> bool)
    ensures var r := SafeTitle(title, isAlnum); forall i :: 0 <= i < |r| ==> isAlnum(r[i]) || r[i] == '_'
  {
  }

  /** `f"GEN_{count}_{safe_title}.md"`. */
  function ReportName(count: nat, title: string, isAlnum: char -> bool): string
  {
    "GEN_" + NatToString(count) + "_" + SafeTitle(title, isAlnum) + ".md"
  }

  lemma ReportNameLayout(count: nat, title: string, isAlnum: char -> bool)
    ensures var name := ReportName(count, title, isAlnum); var d := NatToString(count);
      4 + |d| < |name| && name[4 + |d|] == '_' && name[4..4 + |d|] == d
  {
    var d := NatToString(count);
    var name := ReportName(count, title, isAlnum);
    assert name == "GEN_" + d + ("_" + SafeTitle(title, isAlnum) + ".md");
  }

  /** Reports saved under different counts get different file names. */
  lemma ReportNamesDiffer(a: nat, b: nat, ta: string, tb: string, isAlnum: char -> bool)
    requires a != b
    ensures ReportName(a, ta, isAlnum) != ReportName(b, tb, isAlnum)
  {
    var da, db := NatToString(a), NatToString(b);
    var na, nb := ReportName(a, ta, isAlnum), ReportName(b, tb, isAlnum);
    ReportNameLayout(a, ta, isAlnum);
    ReportNameLayout(b, tb, isAlnum);
    if na == nb && |da| == |db| {
      NatToStringInjective(a, b);
    }
  }

  /** The title line: the Japanese title when there is one. */
  function ReportHead(item: Item): string
  {
    "# " + item.titleJa.GetOr(item.title) + "\n\n"
  }

  function ReportMeta(item: Item): string
  {
    "- **Source**: " + item.source + "\n" + "- **Date**: " + item.published + "\n" + "- **URL**: " + item.url + "\n\n"
  }

  /** The summary section: the Japanese summary when there is one. */
  function ReportSummary(item: Item): string
  {
    "## Summary\n" + item.summaryJa.GetOr(item.summary) + "\n"
  }

  function WhyLine(item: Item): string
  {
    if item.reason.Some? then "\n- **Why**: " + item.reason.value + "\n" else ""
  }

  /** The Markdown written for an item. */
  function ReportText(item: Item): string
  {
    ReportHead(item) + ReportMeta(item) + ReportSummary(item) + WhyLine(item)
  }

  /**
   * The report opens with the displayed title, preferring the Japanese one,
   * and closes with the Why line exactly when the item has a reason, and
   * with the displayed summary otherwise.
   */
  lemma ReportTextShape(item: Item)
    ensures StartsWith(ReportText(item), "# " + item.titleJa.GetOr(item.title) + "\n\n")
    ensures item.reason.Some? ==> EndsWith(ReportText(item), "\n- **Why**: " + item.reason.value + "\n")
    ensures item.reason.None? ==> EndsWith(ReportText(item), "## Summary\n" + item.summaryJa.GetOr(item.summary) + "\n")
  {
    var h, m, s, w := ReportHead(item), ReportMeta(item), ReportSummary(item), WhyLine(item);
    AppendAssoc(h + m, s, w);
    AppendAssoc(h, m, s + w);
    StartsWithConcat(h, m + (s + w));
    if item.reason.Some? {
      EndsWithConcat(h + m + s, w);
    } else {
      assert h + m + s + w == (h + m) + s;
      EndsWithConcat(h + m, s);
    }
  }

  datatype Report = Report(name: string, text: string)

  /**
   * The saving loop: item `k` (from 0) is written under count `k + 1`.
   */
  method SaveReports(items: seq<Item>, isAlnum: char -> bool) returns (reports: seq<Report>, count: nat)
    ensures count == |items| && |reports| == count
    ensures forall k :: 0 <= k < count ==> reports[k] == Report(ReportName(k + 1, items[k].title, isAlnum), ReportText(items[k]))
    ensures forall a, b :: 0 <= a < b < count ==> reports[a].name != reports[b].name
  {
    reports := [];
    count := 0;
    for i := 0 to |items|
      invariant count == i && |reports| == i
      invariant forall k :: 0 <= k < i ==> reports[k] == Report(ReportName(k + 1, items[k].title, isAlnum), ReportText(items[k]))
    {
      var item := items[i];
      count := count + 1;
      var name := ReportName(count, item.title, isAlnum);
      reports := reports + [Report(name, ReportText(item))];
    }
    SavedNamesDistinct(items, isAlnum, reports);
  }

  /** One run never writes two reports to the same file. */
  lemma SavedNamesDistinct(items: seq<Item>, isAlnum: char -> bool, reports: seq<Report>)
    requires |reports| == |items|
    requires forall k :: 0 <= k < |items| ==> reports[k].name == ReportName(k + 1, items[k].title, isAlnum)
    ensures forall a, b :: 0 <= a < b < |reports| ==> reports[a].name != reports[b].name
  {
    forall a, b | 0 <= a < b < |reports| ensures reports[a].name != reports[b].name {
      ReportNamesDiffer(a + 1, b + 1, items[a].title, items[b].title, isAlnum);
    }
  }

  /** collect_from_rss end to end: collect, translate if possible, save. */
  method CollectGeneral(feeds: seq<Feed>, now: int, parse: string -> Option<Stamp>,
                        translate: Option<seq<Article> -> seq<Item>>, show: Stamp -> string, isAlnum: char -> bool)
    returns (reports: seq<Report>)
    ensures var items := ItemsToSave(Selected(Stream(feeds), now, parse), translate, show);
      |reports| == |items|
      && forall k :: 0 <= k < |items| ==> reports[k] == Report(ReportName(k + 1, items[k].title, isAlnum), ReportText(items[k]))
  {
    var articles := CollectFromRss(feeds, now, parse);
    var items := ItemsToSave(articles, translate, show);
    var count;
    reports, count := SaveReports(items, isAlnum);
  }
}
