/**
 * post_to_x.py: turn the daily reports into news items, compose one post
 * per item, and post every item whose id (its URL) is not yet in the
 * posted history, saving the history after each successful post.
 */
module PostToX {
  import opened Wrappers
  import opened Text
  import opened ReportSections

  datatype NewsItem = NewsItem(tool: string, category: string, summary: string, url: string, id: string)

  const DefaultCategory := "AI News"
  const TweetLimit := 280

  /** What every parsed item satisfies: its id is its URL, a web link, and its summary is real text. */
  predicate ValidItem(it: NewsItem)
  {
    it.id == it.url && StartsWith(it.url, "http") && |it.summary| > 5 && !Contains(it.summary, "**")
  }

  /**
   * One tool section: skipped when it reports no news, and kept only when
   * both the summary and the URL fields are found and pass the sanity check
   * (a summary longer than five characters once stripped and unbolded, a
   * URL starting with "http"). The item's id is its URL.
   */
  function ItemOf(category: string, sec: Section): (r: Option<NewsItem>)
    ensures r.Some? <==>
      && !IsNoNewsBody(sec.body)
      && SearchField(sec.body, "**Summary**").Some?
      && SearchField(sec.body, "**URL**").Some?
      && |ReplaceAll(Strip(SearchField(sec.body, "**Summary**").value), "**", "")| > 5
      && StartsWith(Strip(SearchField(sec.body, "**URL**").value), "http")
    ensures r.Some? ==>
      && r.value.summary == ReplaceAll(Strip(SearchField(sec.body, "**Summary**").value), "**", "")
      && r.value.url == Strip(SearchField(sec.body, "**URL**").value)
      && r.value.id == r.value.url
      && r.value.category == category && r.value.tool == sec.tool
    ensures r.Some? ==> ValidItem(r.value)
  {
    var sm := SearchField(sec.body, "**Summary**");
    var um := SearchField(sec.body, "**URL**");
    if IsNoNewsBody(sec.body) || sm.None? || um.None? then None
    else
      var summary := ReplaceAll(Strip(sm.value), "**", "");
      var url := Strip(um.value);
      UnboldGone(Strip(sm.value));
      if |summary| > 5 && StartsWith(url, "http") then Some(NewsItem(sec.tool, category, summary, url, url))
      else None
  }

  /**
   * A section that reports no news, or in which the summary or URL field is
   * not found (in particular, whose body lacks either label), yields no item.
   */
  lemma NoItemWithoutNews(category: string, sec: Section)
    requires || IsNoNewsBody(sec.body)
             || SearchField(sec.body, "**Summary**").None? || SearchField(sec.body, "**URL**").None?
             || !Contains(sec.body, "**Summary**") || !Contains(sec.body, "**URL**")
    ensures ItemOf(category, sec).None?
  {
    if !Contains(sec.body, "**Summary**") {
      SearchFieldNeedsLabel(sec.body, "**Summary**");
    }
    if !Contains(sec.body, "**URL**") {
      SearchFieldNeedsLabel(sec.body, "**URL**");
    }
  }

  /**
   * The items of the given sections under one category: exactly the items
   * of the sections that give one, in section order (see ItemsOfSnoc).
   */
  function ItemsOf(category: string, secs: seq<Section>): (items: seq<NewsItem>)
    ensures |items| <= |secs|
    ensures forall it :: it in items ==> ValidItem(it) && it.category == category
    ensures forall it :: it in items ==> exists k :: 0 <= k < |secs| && ItemOf(category, secs[k]) == Some(it)
    ensures forall k :: 0 <= k < |secs| && ItemOf(category, secs[k]).Some? ==> ItemOf(category, secs[k]).value in items
  {
    MapSomes(secs, sec => ItemOf(category, sec))
  }

  /** One more section appends its item, if it gives one, after the others'. */
  lemma ItemsOfSnoc(category: string, secs: seq<Section>, sec: Section)
    ensures ItemsOf(category, secs + [sec]) ==
      ItemsOf(category, secs) + (if ItemOf(category, sec).Some? then [ItemOf(category, sec).value] else [])
  {
    MapSomesSnoc(secs, sec, s => ItemOf(category, s));
  }

  /**
   * The items of one report under its category (or "AI News"): an item for
   * each parsed section that gives one, and nothing else.
   */
  function ParseReport(content: string): (items: seq<NewsItem>)
    ensures |items| <= |Sections(content)|
    ensures forall it :: it in items ==>
      ValidItem(it) && it.category == CategoryCapture(content).GetOr(DefaultCategory)
    ensures var category, secs := CategoryCapture(content).GetOr(DefaultCategory), ParsedSections(content);
      && (forall it :: it in items ==> exists k :: 0 <= k < |secs| && ItemOf(category, secs[k]) == Some(it))
      && (forall k :: 0 <= k < |secs| && ItemOf(category, secs[k]).Some? ==> ItemOf(category, secs[k]).value in items)
  {
    ItemsOf(CategoryCapture(content).GetOr(DefaultCategory), ParsedSections(content))
  }

  /** The category as a hashtag: its spaces removed, every other character kept in order. */
  function CategoryTag(category: string): (tag: string)
    ensures tag == Without(category, ' ')
    ensures multiset(tag) == multiset(category)[' ' := 0]
    ensures ' ' !in tag
  {
    RemoveChar(category, " ");
    ReplaceAll(category, " ", "")
  }

  function Headline(item: NewsItem): string
  {
    "\U{1F4E2} " + item.tool + " Update!\n\n"
  }

  function FullTweet(item: NewsItem): string
  {
    Headline(item) + item.summary + "\n\n" + item.url + "\n#AI #" + CategoryTag(item.category)
  }

  function ShortTweet(item: NewsItem, summary: string): string
  {
    Headline(item) + summary + "\n\n" + item.url + "\n#AI"
  }

  /**
   * The post text.  When the full text is over 280 characters, the summary
   * loses the excess plus five characters, gains "...", and the category
   * hashtag is dropped.
   */
  function ComposeTweet(item: NewsItem): (t: string)
    ensures |FullTweet(item)| <= TweetLimit ==> t == FullTweet(item)
    ensures |FullTweet(item)| > TweetLimit ==>
      var drop := |FullTweet(item)| - TweetLimit + 5;
      exists cut ::
        && StartsWith(item.summary, cut)
        && |cut| == (if drop <= |item.summary| then |item.summary| - drop else 0)
        && t == ShortTweet(item, cut + "...")
  {
    var full := FullTweet(item);
    if |full| > TweetLimit then
      var excess := |full| - TweetLimit;
      var cut := DropLast(item.summary, excess + 5);
      assert StartsWith(item.summary, cut);
      ShortTweet(item, cut + "...")
    else full
  }

  /**
   * The truncation brings the post within the limit whenever the summary is
   * long enough to lose the excess: the result is then 276 characters minus
   * the hashtag length.  With a shorter summary the summary becomes "..."
   * alone and nothing bounds the length.
   */
  lemma TruncatedTweetFits(item: NewsItem)
    requires |FullTweet(item)| > TweetLimit
    requires |item.summary| >= |FullTweet(item)| - TweetLimit + 5
    ensures |ComposeTweet(item)| == TweetLimit - 4 - |CategoryTag(item.category)|
    ensures |ComposeTweet(item)| <= TweetLimit
  {
  }

  /** Every post, full or truncated, carries the item's link on its own line after a blank line. */
  lemma TweetCarriesUrl(item: NewsItem)
    ensures StartsWith(ComposeTweet(item), Headline(item))
    ensures Contains(ComposeTweet(item), "\n\n" + item.url + "\n#AI")
  {
    if |FullTweet(item)| > TweetLimit {
      var cut := DropLast(item.summary, |FullTweet(item)| - TweetLimit + 5);
      PostShape(item, cut + "...", "\n#AI");
    } else {
      var rest := "\n#AI #" + CategoryTag(item.category);
      assert rest[..4] == "\n#AI";
      AppendAssoc(Headline(item) + item.summary + "\n\n" + item.url, "\n#AI #", CategoryTag(item.category));
      PostShape(item, item.summary, rest);
    }
  }

  /** The headline, a summary, a blank line, the link and then "\n#AI": the link line is found. */
  lemma PostShape(item: NewsItem, summary: string, rest: string)
    requires StartsWith(rest, "\n#AI")
    ensures var t := Headline(item) + summary + "\n\n" + item.url + rest;
      StartsWith(t, Headline(item)) && Contains(t, "\n\n" + item.url + "\n#AI")
  {
    var h := Headline(item);
    var pat := "\n\n" + item.url + "\n#AI";
    var t := h + summary + "\n\n" + item.url + rest;
    var i := |h| + |summary|;
    assert t[..|h|] == h;
    assert t[i..i + |pat|] == pat;
    assert OccursAt(t, pat, i);
    ContainsIff(t, pat);
  }

  // ---------------------------------------------------------------------
  // Posting
  // ---------------------------------------------------------------------

  /**
   * The state main() builds up: the history list, the history as saved
   * after each successful post, the posts sent, the new-item counter, and
   * the number of posting attempts (which indexes the `accept` oracle).
   */
  datatype Ledger = Ledger(history: seq<string>, saves: seq<seq<string>>, sent: seq<string>, newItems: nat, attempts: nat)

  function Start(history: seq<string>): Ledger
  {
    Ledger(history, [], [], 0, 0)
  }

  /**
   * One item: skipped when already posted; otherwise one posting attempt,
   * which `accept(attempt, text)` lets succeed or fail.  Only a success
   * changes the history, the saved copies and the counter.
   */
  function PostStep(st: Ledger, item: NewsItem, accept: (nat, string) -> bool): (r: Ledger)
    ensures item.id in st.history ==> r == st
    ensures r.history == st.history || r.history == st.history + [item.id]
    ensures r.history != st.history <==> item.id !in st.history && accept(st.attempts, ComposeTweet(item))
    ensures r.history == st.history ==> r.saves == st.saves && r.sent == st.sent && r.newItems == st.newItems
  {
    if item.id in st.history then st
    else
      var tweet := ComposeTweet(item);
      if accept(st.attempts, tweet) then
        var h := st.history + [item.id];
        Ledger(h, st.saves + [h], st.sent + [tweet], st.newItems + 1, st.attempts + 1)
      else st.(attempts := st.attempts + 1)
  }

  function PostItems(st: Ledger, items: seq<NewsItem>, accept: (nat, string) -> bool): Ledger
    decreases |items|
  {
    if items == [] then st
    else PostStep(PostItems(st, items[..|items| - 1], accept), items[|items| - 1], accept)
  }

  function PostReports(st: Ledger, reports: seq<string>, accept: (nat, string) -> bool): Ledger
    decreases |reports|
  {
    if reports == [] then st
    else PostItems(PostReports(st, reports[..|reports| - 1], accept), ParseReport(reports[|reports| - 1]), accept)
  }

  /**
   * What posting keeps true relative to the loaded history `h0`: it is only
   * appended to, the appended ids are distinct and new, one post and one
   * saved copy exist per appended id, the counter counts them, and the k-th
   * save holds the history as it was right after the k-th post.
   */
  predicate Consistent(h0: seq<string>, st: Ledger)
  {
    Extends(h0, st.history, st.saves, st.sent, st.newItems)
  }

  predicate Extends(h0: seq<string>, history: seq<string>, saves: seq<seq<string>>, sent: seq<string>, count: nat)
  {
    && |h0| <= |history| && history[..|h0|] == h0
    && (forall i, j :: |h0| <= i < j < |history| ==> history[i] != history[j])
    && (forall i :: |h0| <= i < |history| ==> history[i] !in h0)
    && |saves| == |sent| == count == |history| - |h0|
    && (forall k :: 0 <= k < |saves| ==> saves[k] == history[..|h0| + k + 1])
  }

  lemma PostStepConsistent(h0: seq<string>, st: Ledger, item: NewsItem, accept: (nat, string) -> bool)
    requires Consistent(h0, st)
    ensures Consistent(h0, PostStep(st, item, accept))
  {
    var r := PostStep(st, item, accept);
    if r.history != st.history {
      assert r.history == st.history + [item.id];
      assert h0 == st.history[..|h0|];
      assert item.id !in h0;
      forall k | 0 <= k < |r.saves| ensures r.saves[k] == r.history[..|h0| + k + 1] {
        if k < |st.saves| {
          assert r.history[..|h0| + k + 1] == st.history[..|h0| + k + 1];
        }
      }
    }
  }

  lemma {:induction false} PostItemsConsistent(h0: seq<string>, st: Ledger, items: seq<NewsItem>, accept: (nat, string) -> bool)
    requires Consistent(h0, st)
    ensures Consistent(h0, PostItems(st, items, accept))
    decreases |items|
  {
    if items != [] {
      PostItemsConsistent(h0, st, items[..|items| - 1], accept);
      PostStepConsistent(h0, PostItems(st, items[..|items| - 1], accept), items[|items| - 1], accept);
    }
  }

  /** Posting every report keeps the ledger consistent with the loaded history. */
  lemma {:induction false} PostReportsConsistent(h0: seq<string>, reports: seq<string>, accept: (nat, string) -> bool)
    ensures Consistent(h0, PostReports(Start(h0), reports, accept))
    decreases |reports|
  {
    if reports == [] {
      assert h0[..|h0|] == h0;
    } else {
      PostReportsConsistent(h0, reports[..|reports| - 1], accept);
      PostItemsConsistent(h0, PostReports(Start(h0), reports[..|reports| - 1], accept), ParseReport(reports[|reports| - 1]), accept);
    }
  }

  /** An item already in the history is never posted again: posting it changes nothing. */
  lemma {:induction false} PostedItemsStayPosted(st: Ledger, items: seq<NewsItem>, accept: (nat, string) -> bool)
    ensures |st.history| <= |PostItems(st, items, accept).history|
    ensures PostItems(st, items, accept).history[..|st.history|] == st.history
    decreases |items|
  {
    if items != [] {
      PostedItemsStayPosted(st, items[..|items| - 1], accept);
      var mid := PostItems(st, items[..|items| - 1], accept);
      assert mid.history[..|st.history|] == st.history;
      var r := PostStep(mid, items[|items| - 1], accept);
      assert r.history[..|st.history|] == mid.history[..|st.history|];
    }
  }

  lemma PostReportsStep(st: Ledger, reports: seq<string>, r: nat, accept: (nat, string) -> bool)
    requires r < |reports|
    ensures PostReports(st, reports[..r + 1], accept)
         == PostItems(PostReports(st, reports[..r], accept), ParseReport(reports[r]), accept)
  {
    assert reports[..r + 1][..r] == reports[..r];
  }

  /** The inner loop of main(): one posting attempt per item not yet in the history. */
  method PostReportItems(items: seq<NewsItem>, accept: (nat, string) -> bool,
                         history0: seq<string>, saves0: seq<seq<string>>, sent0: seq<string>, count0: nat, attempts0: nat)
    returns (history: seq<string>, saves: seq<seq<string>>, sent: seq<string>, newItemsCount: nat, attempts: nat)
    ensures Ledger(history, saves, sent, newItemsCount, attempts)
         == PostItems(Ledger(history0, saves0, sent0, count0, attempts0), items, accept)
  {
    history, saves, sent, newItemsCount, attempts := history0, saves0, sent0, count0, attempts0;
    ghost var start := Ledger(history0, saves0, sent0, count0, attempts0);
    var i := 0;
    while i < |items|
      invariant 0 <= i <= |items|
      invariant Ledger(history, saves, sent, newItemsCount, attempts) == PostItems(start, items[..i], accept)
    {
      var item := items[i];
      assert items[..i + 1][..i] == items[..i];
      if item.id in history {
        i := i + 1;
        continue;
      }
      var tweet := ComposeTweet(item);
      var ok := accept(attempts, tweet);
      attempts := attempts + 1;
      if ok {
        history := history + [item.id];
        saves := saves + [history];
        sent := sent + [tweet];
        newItemsCount := newItemsCount + 1;
      }
      i := i + 1;
    }
    assert items[..|items|] == items;
  }

  /**
   * main(): without a client nothing is posted and the history is not
   * touched; otherwise every report is parsed in order and every new item
   * gets one posting attempt.
   */
  method PostNewItems(hasClient: bool, history0: seq<string>, reports: seq<string>, accept: (nat, string) -> bool)
    returns (history: seq<string>, saves: seq<seq<string>>, sent: seq<string>, newItemsCount: nat)
    ensures !hasClient ==> history == history0 && saves == [] && sent == [] && newItemsCount == 0
    ensures hasClient ==>
      var l := PostReports(Start(history0), reports, accept);
      history == l.history && saves == l.saves && sent == l.sent && newItemsCount == l.newItems
    ensures Extends(history0, history, saves, sent, newItemsCount)
  {
    history, saves, sent, newItemsCount := history0, [], [], 0;
    var attempts: nat := 0;
    assert history0[..|history0|] == history0;
    if !hasClient {
      return;
    }
    var r := 0;
    while r < |reports|
      invariant 0 <= r <= |reports|
      invariant Ledger(history, saves, sent, newItemsCount, attempts) == PostReports(Start(history0), reports[..r], accept)
    {
      var items := ParseReport(reports[r]);
      PostReportsStep(Start(history0), reports, r, accept);
      history, saves, sent, newItemsCount, attempts := PostReportItems(items, accept, history, saves, sent, newItemsCount, attempts);
      r := r + 1;
    }
    assert reports[..|reports|] == reports;
    PostReportsConsistent(history0, reports, accept);
  }
}
