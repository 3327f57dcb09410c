/**
 * post_to_line.py: the morning LINE digest.  The report parser keeps the
 * X poster's section split and "no news" skip but needs only a Summary
 * label; the message is a header, the first ten items, an overflow line
 * and a footer that links to the site.
 */
module PostToLine {
  import opened Wrappers
  import opened Text
  import opened ReportSections
  import PostToX

  const SiteUrl := "https://tadahikof.github.io/AI_TOOL_NEWS/"
  const DigestHour := 7
  const MaxShown := 10
  const SummaryWidth := 50

  // ---------------------------------------------------------------------
  // Items
  // ---------------------------------------------------------------------

  /** "🔹 {tool}\n{summary[:50]}...": the dots are there even for a short summary. */
  function ItemText(tool: string, summary: string): string
  {
    "\U{1F539} " + tool + "\n" + Take(summary, SummaryWidth) + "..."
  }

  /** The item of one section: only the Summary label is needed, the URL is never read. */
  function LineItemOf(sec: Section): (r: Option<string>)
  {
    if IsNoNewsBody(sec.body) then None
    else match SearchField(sec.body, "**Summary**")
      case Some(sm) => Some(ItemText(sec.tool, LineSummary(sm)))
      case None => None
  }

  /** The labelled summary, stripped and without "**". */
  function LineSummary(sm: string): (summary: string)
    requires '\n' !in sm
    ensures '\n' !in summary && !Contains(summary, "**")
  {
    StripKeepsOut(sm, '\n');
    ReplaceAllKeepsOut(Strip(sm), "**", "", '\n');
    UnboldGone(Strip(sm));
    ReplaceAll(Strip(sm), "**", "")
  }

  /** A section gives an item exactly when it has news and a Summary label. */
  lemma LineItemIff(sec: Section)
    ensures LineItemOf(sec).Some? <==>
      !IsNoNewsBody(sec.body) && exists q :: LabelAt(sec.body, "**Summary**", q)
  {
    SearchFieldFound(sec.body, "**Summary**");
  }

  /** Every section the X poster turns into an item also gives a LINE item. */
  lemma XItemGivesLineItem(category: string, sec: Section)
    requires PostToX.ItemOf(category, sec).Some?
    ensures LineItemOf(sec).Some?
  {
    if SearchField(sec.body, "**Summary**").None? {
      PostToX.NoItemWithoutNews(category, sec);
    }
  }

  /** The tool line of a parsed section is a single line. */
  lemma ToolIsOneLine(section: string)
    ensures '\n' !in ParseSection(section).tool
  {
    var lines := Split(Strip(section), '\n');
    StripKeepsOut(lines[0], '\n');
  }

  /**
   * An item reads back: the tool sits between the marker and the only line
   * break, and the shown part of the summary between that break and "...".
   */
  lemma ItemTextDecodes(tool: string, summary: string)
    requires '\n' !in tool && '\n' !in summary
    ensures var t := ItemText(tool, summary);
      '\n' in t && IndexOf(t, '\n') == |tool| + 2
      && t[2..IndexOf(t, '\n')] == tool
      && t[IndexOf(t, '\n') + 1..|t| - 3] == Take(summary, SummaryWidth)
  {
    var t := ItemText(tool, summary);
    assert t[|tool| + 2] == '\n';
    assert '\n' !in t[..|tool| + 2] by {
      assert t[..|tool| + 2] == "\U{1F539} " + tool;
    }
    assert t[2..|tool| + 2] == tool;
  }

  /** Two one-line tools give the same item only with the same tool and shown summary. */
  lemma ItemTextInjective(tool1: string, summary1: string, tool2: string, summary2: string)
    requires '\n' !in tool1 && '\n' !in summary1 && '\n' !in tool2 && '\n' !in summary2
    requires ItemText(tool1, summary1) == ItemText(tool2, summary2)
    ensures tool1 == tool2 && Take(summary1, SummaryWidth) == Take(summary2, SummaryWidth)
  {
    ItemTextDecodes(tool1, summary1);
    ItemTextDecodes(tool2, summary2);
  }

  /**
   * The items of one report: one for each parsed section that gives one,
   * and nothing else, in section order (see MapSomesSnoc).
   */
  function LineItems(content: string): (items: seq<string>)
    ensures |items| <= |Sections(content)|
    ensures var secs := ParsedSections(content);
      && (forall it :: it in items ==> exists k :: 0 <= k < |secs| && LineItemOf(secs[k]) == Some(it))
      && (forall k :: 0 <= k < |secs| && LineItemOf(secs[k]).Some? ==> LineItemOf(secs[k]).value in items)
  {
    MapSomes(ParsedSections(content), LineItemOf)
  }

  /** `all_items.extend(...)` over the day's general-news files, in the order given. */
  function DigestItems(reports: seq<string>): seq<string>
  {
    if reports == [] then [] else DigestItems(reports[..|reports| - 1]) + LineItems(reports[|reports| - 1])
  }

  // ---------------------------------------------------------------------
  // The shape the message relies on
  // ---------------------------------------------------------------------

  /** Where "\n\n." would appear: only the overflow line puts dots after a blank line. */
  const BreakDot := "\n\n."

  /**
   * Two texts without "\n\n." make none when joined, unless the seam makes
   * one: a line break ends the first and "\n." starts the second, or a
   * blank line ends the first and a dot starts the second.
   */
  lemma NoBreakDotAcross(a: string, b: string)
    requires !Contains(a, BreakDot) && !Contains(b, BreakDot)
    requires !(a != [] && a[|a| - 1] == '\n' && |b| >= 2 && b[0] == '\n' && b[1] == '.')
    requires !(|a| >= 2 && a[|a| - 2] == '\n' && a[|a| - 1] == '\n' && b != [] && b[0] == '.')
    ensures !Contains(a + b, BreakDot)
  {
    forall k | 0 < k < |BreakDot| && EndsWith(a, BreakDot[..k])
      ensures a[|a| - 1] == '\n' && (k == 2 ==> a[|a| - 2] == '\n')
    {
      assert a[|a| - 1] == a[|a| - k..][k - 1];
      assert k == 2 ==> a[|a| - 2] == a[|a| - k..][0];
    }
    forall k | 0 < k < |BreakDot| && StartsWith(b, BreakDot[k..])
      ensures b[0] == BreakDot[k] && (k == 1 ==> b[1] == '.')
    {
      assert b[0] == b[..|BreakDot| - k][0];
      assert k == 1 ==> b[1] == b[..|BreakDot| - k][1];
    }
    ConcatNotContains(a, b, BreakDot);
  }

  /** An item starts with its marker and never has a blank line followed by a dot. */
  predicate ItemShaped(it: string)
  {
    it != [] && it[0] == '\U{1F539}' && !Contains(it, BreakDot)
  }

  lemma ItemTextShaped(tool: string, summary: string)
    requires '\n' !in tool && '\n' !in summary
    ensures ItemShaped(ItemText(tool, summary))
  {
    var head := "\U{1F539} " + tool;
    var tail := Take(summary, SummaryWidth) + "...";
    MissingCharNotContained(head, BreakDot, '\n');
    MissingCharNotContained("\n", BreakDot, '.');
    assert head[|head| - 1] in head;
    NoBreakDotAcross(head, "\n");
    MissingCharNotContained(tail, BreakDot, '\n');
    assert tail[0] in tail;
    assert (head + "\n")[|head| - 1] == head[|head| - 1];
    NoBreakDotAcross(head + "\n", tail);
    assert ItemText(tool, summary) == head + "\n" + tail;
  }

  /** Every item the parser gives is shaped. */
  lemma LineItemShaped(sec: Section, section: string)
    requires sec == ParseSection(section)
    requires LineItemOf(sec).Some?
    ensures ItemShaped(LineItemOf(sec).value)
  {
    ToolIsOneLine(section);
    var sm := SearchField(sec.body, "**Summary**").value;
    ItemTextShaped(sec.tool, LineSummary(sm));
  }

  lemma {:induction false} DigestItemsShaped(reports: seq<string>)
    ensures forall it :: it in DigestItems(reports) ==> ItemShaped(it)
    decreases |reports|
  {
    if reports != [] {
      DigestItemsShaped(reports[..|reports| - 1]);
      var content := reports[|reports| - 1];
      var raw := Sections(content);
      forall it | it in LineItems(content) ensures ItemShaped(it) {
        var k :| 0 <= k < |ParsedSections(content)| && LineItemOf(ParsedSections(content)[k]) == Some(it);
        LineItemShaped(ParsedSections(content)[k], raw[k]);
      }
    }
  }

  // ---------------------------------------------------------------------
  // The message
  // ---------------------------------------------------------------------

  function Header(date: string): string
  {
    "\U{1F4C5} " + date + " AI News Digest\n\n"
  }

  const OverflowLead := "\n\n...and "

  /** "\n\n...and {n - 10} more." for more than ten items. */
  function Overflow(n: nat): string
    requires n > MaxShown
  {
    OverflowLead + NatToString(n - MaxShown) + " more."
  }

  const FooterLead := "\n\n\U{1F517} Full Report:\n"
  const Footer := FooterLead + SiteUrl

  /** `items[:10]` */
  function Shown(items: seq<string>): (r: seq<string>)
    ensures |r| == (if |items| <= MaxShown then |items| else MaxShown) && r == items[..|r|]
  {
    items[..if |items| <= MaxShown then |items| else MaxShown]
  }

  /** The digest for the given date and items. */
  function DigestText(date: string, items: seq<string>): (msg: string)
    ensures StartsWith(msg, Header(date)) && EndsWith(msg, Footer)
  {
    var body := Header(date) + Join("\n\n", Shown(items));
    if |items| > MaxShown then
      assert (body + Overflow(|items|) + Footer)[..|Header(date)|] == Header(date);
      assert (body + Overflow(|items|) + Footer)[|body + Overflow(|items|)|..] == Footer;
      body + Overflow(|items|) + Footer
    else
      assert (body + Footer)[..|Header(date)|] == Header(date);
      assert (body + Footer)[|body|..] == Footer;
      body + Footer
  }

  /**
   * main(): nothing unless it is 7 o'clock in Japan and there are items;
   * otherwise the message is assembled piece by piece.
   */
  method ComposeDigest(hour: nat, date: string, items: seq<string>) returns (msg: Option<string>)
    ensures msg.Some? <==> hour == DigestHour && items != []
    ensures msg.Some? ==> msg.value == DigestText(date, items)
  {
    if hour != DigestHour {
      return None;
    }
    if items == [] {
      return None;
    }
    var text := "\U{1F4C5} " + date + " AI News Digest\n\n";
    assert text == Header(date);
    text := text + Join("\n\n", Shown(items));
    if |items| > MaxShown {
      text := text + OverflowLead + NatToString(|items| - MaxShown) + " more.";
    }
    text := text + Footer;
    return Some(text);
  }

  // ---------------------------------------------------------------------
  // What the message shows
  // ---------------------------------------------------------------------

  lemma {:induction false} JoinContains(sep: string, parts: seq<string>, k: nat)
    requires k < |parts|
    ensures Contains(Join(sep, parts), parts[k])
    decreases |parts|
  {
    var j := Join(sep, parts);
    if |parts| == 1 {
      assert OccursAt(j, parts[0], 0);
    } else if k == 0 {
      assert OccursAt(j, parts[0], 0);
    } else {
      JoinContains(sep, parts[1..], k - 1);
      var rest := Join(sep, parts[1..]);
      ContainsIff(rest, parts[k]);
      var i :| OccursAt(rest, parts[k], i);
      var off := |parts[0] + sep|;
      assert j == parts[0] + sep + rest;
      assert j[off + i..off + i + |parts[k]|] == rest[i..i + |parts[k]|];
      assert OccursAt(j, parts[k], off + i);
    }
    ContainsIff(j, parts[k]);
  }

  lemma ContainsInfix(a: string, b: string, c: string, p: string)
    requires Contains(b, p)
    ensures Contains(a + b + c, p)
  {
    ContainsIff(b, p);
    var i :| OccursAt(b, p, i);
    assert (a + b + c)[|a| + i..|a| + i + |p|] == b[i..i + |p|];
    assert OccursAt(a + b + c, p, |a| + i);
    ContainsIff(a + b + c, p);
  }

  /** Each of the first ten items appears in the message. */
  lemma DigestShowsFirstTen(date: string, items: seq<string>, k: nat)
    requires k < |items| && k < MaxShown
    ensures Contains(DigestText(date, items), items[k])
  {
    var shown := Shown(items);
    JoinContains("\n\n", shown, k);
    if |items| > MaxShown {
      ContainsInfix(Header(date), Join("\n\n", shown), Overflow(|items|) + Footer, items[k]);
      AppendAssoc(Header(date) + Join("\n\n", shown), Overflow(|items|), Footer);
    } else {
      ContainsInfix(Header(date), Join("\n\n", shown), Footer, items[k]);
    }
  }

  /** Joining shaped items with blank lines never puts a dot after a blank line. */
  lemma {:induction false} JoinShapedClean(items: seq<string>)
    requires forall it :: it in items ==> ItemShaped(it)
    ensures !Contains(Join("\n\n", items), BreakDot)
    ensures items != [] ==> StartsWith(Join("\n\n", items), "\U{1F539}")
    decreases |items|
  {
    if |items| == 0 {
      assert Join("\n\n", items) == "";
    } else if |items| == 1 {
      assert items[0] in items;
    } else {
      assert items[0] in items;
      JoinShapedClean(items[1..]);
      var rest := Join("\n\n", items[1..]);
      MissingCharNotContained("\n\n", BreakDot, '.');
      NoBreakDotAcross(items[0], "\n\n");
      assert StartsWith(rest, "\U{1F539}") by {
        assert items[1..][0] in items;
      }
      assert rest[0] == '\U{1F539}';
      NoBreakDotAcross(items[0] + "\n\n", rest);
      assert Join("\n\n", items) == items[0] + "\n\n" + rest;
    }
  }

  lemma HeaderClean(date: string)
    requires '\n' !in date
    ensures !Contains(Header(date), BreakDot)
  {
    var head := "\U{1F4C5} " + date + " AI News Digest";
    MissingCharNotContained(head, BreakDot, '\n');
    MissingCharNotContained("\n\n", BreakDot, '.');
    assert head[|head| - 1] in head;
    NoBreakDotAcross(head, "\n\n");
    assert Header(date) == head + "\n\n";
  }

  /** The footer: a dot-free lead and then a one-line link. */
  lemma FooterClean(lead: string, url: string)
    requires '.' !in lead && '\n' !in url && url != [] && url[0] != '.'
    ensures !Contains(lead + url, BreakDot)
  {
    MissingCharNotContained(lead, BreakDot, '.');
    MissingCharNotContained(url, BreakDot, '\n');
    assert url[0] in url;
    NoBreakDotAcross(lead, url);
  }

  /** The footer starts with a blank line and no dot follows a blank line in it. */
  lemma FooterShape()
    ensures !Contains(Footer, BreakDot) && |Footer| >= 2 && Footer[0] == '\n' && Footer[1] == '\n'
  {
    FooterClean(FooterLead, SiteUrl);
    assert Footer[0] == FooterLead[0];
    assert Footer[1] == FooterLead[1];
  }

  /**
   * The "...and N more." line is there exactly when there are more than ten
   * items; a date in its usual one-line form keeps it from appearing by accident.
   */
  lemma OverflowIffMoreThanTen(date: string, items: seq<string>)
    requires '\n' !in date && items != []
    requires forall it :: it in items ==> ItemShaped(it)
    ensures Contains(DigestText(date, items), OverflowLead) <==> |items| > MaxShown
  {
    var msg := DigestText(date, items);
    var joined := Join("\n\n", Shown(items));
    if |items| > MaxShown {
      assert OccursAt(Overflow(|items|), OverflowLead, 0);
      ContainsIff(Overflow(|items|), OverflowLead);
      ContainsInfix(Header(date) + joined, Overflow(|items|), Footer, OverflowLead);
    } else {
      forall it | it in Shown(items) ensures ItemShaped(it) {}
      JoinShapedClean(Shown(items));
      HeaderClean(date);
      FooterShape();
      assert StartsWith(joined, "\U{1F539}");
      assert !StartsWith(joined, "\n.") && !StartsWith(joined, ".") by {
        assert joined[0] == '\U{1F539}';
      }
      NoBreakDotAcross(Header(date), joined);
      var body := Header(date) + joined;
      NoBreakDotAcross(body, Footer);
      assert msg == body + Footer;
      NotContainsWider(msg, OverflowLead, BreakDot, 0);
    }
  }
}
