# AI TOOL NEWS — a verified model of the report pipeline

AI TOOL NEWS collects news about AI tools and publishes it. Its scripts work
in stages:

- `collect_ai_news.py` asks xAI to search X for the tools listed per
  category. It saves one JSON record per new post and hands each record on
  for delivery.
- `collect_general_news.py` filters RSS feeds by AI keywords and writes one
  markdown report per article.
- `post_to_x.py`, `build_site.py` and `post_to_line.py` read the daily
  markdown reports. They publish the reports as posts on X, as the static
  site, and as a LINE digest.
- `translate_reports_v2.py` and `translate_reports.py` rewrite English
  "- Post:" blocks in the reports into Japanese.
- `batch_reanalyze.py` re-runs the analyzer over saved JSON records that
  still carry placeholder text.

This project models the deterministic text and list logic inside those
scripts in Dafny and proves what it promises. That logic covers:

- the section parsers and the hand-written regex matchers;
- the posted-id history;
- tweet and digest composition;
- the two post-block rewriters;
- handle collection, response-text extraction, fence stripping and the
  three-attempt retry loop;
- per-item filtering and the file-name rule;
- RSS relevance, recency and link de-duplication;
- the legacy-record refresh.

Every external service is a function parameter (an oracle): xAI, Gemini,
Tweepy, LINE, `json.loads`, MD5, date parsing and `str.isalnum`.

One module per script, plus three shared modules:

- `Wrappers`: `Option` and helpers for keeping the `Some` values of a
  sequence.
- `Text`: the Python string primitives the scripts use, over sequences of
  code points. These are `strip`, `split`/`join` on one character,
  `replace`, `in`, slicing, ASCII `lower`, `str(n)` and regex word
  boundaries.
- `ReportSections`: the report layout shared by the three readers:
  - the category line `# <category> - Daily Report`;
  - the split on a line-initial `## `;
  - tool line and body;
  - the "no news" sentinels;
  - the labelled field search `(?:- )?\*\*Label\*\*:? (.*)`.
- `PostToX`, `BuildSite`, `PostToLine`, `TranslateReportsV2`,
  `TranslateReports`, `CollectAiNews`, `CollectGeneralNews` and
  `BatchReanalyze`: one module per script.

The model's form follows the code it models:

- Loops that update state become methods with loop invariants, each proved
  equal to a specification function. These are:
  - the posting loop (`PostToX.PostNewItems`);
  - the line scanner (`TranslateReportsV2.ProcessReportLines`);
  - handle collection and response scanning;
  - the retry loop;
  - the per-item loop of `process_category`;
  - the RSS loop;
  - the report-saving loop;
  - the batch refresh over an array of files.
- Expression-style code becomes functions with lemmas.

## Model

| member | source | states |
|---|---|---|
| Text.Strip | post_to_x.py:65 | `str.strip()`: the result neither starts nor ends with a whitespace character |
| Text.StripChars | post_to_x.py:65 | the stripped text is the run of input characters that starts right after the leading whitespace |
| Text.StripDropsSpace | post_to_x.py:65 | every character `strip()` drops, before or after the kept run, is whitespace |
| Text.StripEmpty | post_to_x.py:70 | stripping gives "" exactly when every character is whitespace, which is the `not body_text` test |
| Text.StripIdempotent | post_to_x.py:66 | stripping an already stripped line changes nothing |
| Text.Split | post_to_x.py:65 | `split('\n')`: at least one piece, no piece holds the separator, and joining the pieces with it gives back the input |
| Text.SplitJoin | translate_reports_v2.py:138 | splitting a join of separator-free pieces gives back those pieces |
| Text.ReplaceAll | post_to_x.py:78 | `replace` leaves a text that does not contain the pattern unchanged |
| Text.RemoveUniformGone | post_to_x.py:78 | after `.replace("**", "")` no `**` remains, even where the text had runs of three or more asterisks |
| Text.UnboldGone | post_to_x.py:78 | the same fact for the "**" pattern itself |
| Text.ReplaceCharGone | post_to_x.py:133 | replacing a one-character pattern by text without that character removes it everywhere |
| Text.ReplaceCharByChar | translate_reports_v2.py:86 | `replace('_', ' ')` keeps the length and changes exactly the positions that held the pattern |
| Text.Without | post_to_x.py:133 | the filter that leaves a character out: the character is absent, and every other character keeps its multiplicity |
| Text.RemoveChar | post_to_x.py:133 | `replace(' ', '')` with a one-character pattern equals that filter: the other characters are kept in order |
| Text.Take | post_to_line.py:72 | `s[:n]` is the prefix of length min(n, len(s)) |
| Text.DropLast | post_to_x.py:139 | `s[:-m]` is the prefix of length len(s) − m, or "" when m ≥ len(s) |
| Text.IndexOf | post_to_x.py:65 | the first occurrence of a character: it is there, and it does not occur before |
| Text.Find | translate_reports_v2.py:100 | `str.find`: the leftmost occurrence of the pattern |
| Text.ContainsIff | post_to_x.py:70 | Python `in` holds iff the pattern occurs at some index |
| Text.LineEnd | post_to_x.py:74 | where a regex `.*` stops: the next newline, or the end of the text |
| Text.NatToString | collect_general_news.py:151 | `str(n)` for a count consists of decimal digits only |
| Text.DigitsValueOfNatToString | collect_general_news.py:151 | the digits of `str(n)` read back as n |
| Text.NatToStringInjective | collect_general_news.py:151 | different counts give different digit strings |
| Text.CountWordsAtLeastTwo | translate_reports.py:26-27 | `sum(...) >= 2` over word patterns holds iff two different patterns each occur as a whole word |
| Text.CountWordsAtLeastOne | collect_general_news.py:55 | at least one pattern counted iff some pattern occurs as a whole word |
| ReportSections.LazyEnd | post_to_x.py:57 | the lazy `(.*?)` takes the shortest capture that reaches " - Daily Report" on the same line |
| ReportSections.CategorySearch | post_to_x.py:57 | the leftmost start of a category match, with the shortest capture there; no match from there on when None |
| ReportSections.CategoryCapture | post_to_x.py:57-58 | the captured category is one line and appears as "# <category> - Daily Report"; None iff the regex matches nowhere |
| ReportSections.NextMarker | post_to_x.py:61 | the next line-initial "## ", with none skipped over |
| ReportSections.SplitOnMarkers | post_to_x.py:61 | `re.split(r'^## ', …, re.MULTILINE)`: joining the pieces with "## " rebuilds the report |
| ReportSections.SplitPiecesHaveNoMarker | post_to_x.py:61 | no piece contains a line-initial "## " |
| ReportSections.PreambleNotMarker | post_to_x.py:61 | the discarded preamble never starts with "## " |
| ReportSections.SplitPiecesEndAtLineBreak | post_to_x.py:61 | every piece but the last ends with the newline before the next marker, except an empty preamble |
| ReportSections.NoMarkerNoNewlineMarker | post_to_x.py:61 | a stretch without a line-initial "## " contains no "\n## " |
| ReportSections.ParseSectionLines | post_to_x.py:65-67 | the tool is the stripped first line of the stripped section and the body the stripped rest; the body is "" for a one-line section |
| ReportSections.ParsedSections | post_to_x.py:64 | one parsed section per piece after the preamble |
| ReportSections.FirstLabel | post_to_x.py:74 | the leftmost position where the label is followed by ": " or " " |
| ReportSections.SearchField | post_to_x.py:74 | the captured field value is a single line |
| ReportSections.SearchFieldFound | post_to_x.py:74 | the field search fails iff the label is followed by ": " or " " nowhere |
| ReportSections.SearchFieldIsFirstLabel | post_to_x.py:74-75 | the value runs from the first matching label to the end of its line, after ": " when the colon is present |
| ReportSections.SearchFieldNeedsLabel | post_to_x.py:74 | a body without the label yields no field |
| PostToX.ItemOf | post_to_x.py:70-89 | an item is produced iff the body is not a sentinel, both the Summary and URL fields are found, the stripped and unbolded summary is longer than 5 characters and the stripped URL starts with "http"; its summary and URL are those values, its id is its URL, it has no "**" and it keeps its category and tool |
| PostToX.NoItemWithoutNews | post_to_x.py:70-81 | a sentinel or empty body, one where the Summary or URL field is not found, or one without either label, yields no item |
| PostToX.ItemsOf | post_to_x.py:63-90 | every item is the item of some section, and every section that gives an item contributes it; each is valid and under the report's category |
| PostToX.ItemsOfSnoc | post_to_x.py:63-90 | items come out in section order: one more section appends its item, if any, at the end |
| PostToX.ParseReport | post_to_x.py:51-90 | the items of a report are exactly the items of its parsed sections under the captured category, or "AI News" when there is none; each is valid |
| PostToX.CategoryTag | post_to_x.py:133 | the category hashtag is the category with its spaces left out and every other character kept in order |
| PostToX.ComposeTweet | post_to_x.py:133-140 | a text of at most 280 characters is posted as is; a longer one becomes the short form, with the summary minus its last (excess + 5) characters (empty when it is shorter) plus "...", and no category hashtag |
| PostToX.FullTweet | post_to_x.py:133 | the full post: headline, summary, a blank line, the URL, then "#AI #" and the category hashtag (its properties are stated by ComposeTweet, TweetCarriesUrl and TruncatedTweetFits) |
| PostToX.ShortTweet | post_to_x.py:139 | the short post: headline, the shortened summary, a blank line, the URL and "#AI", without the category hashtag (see PostShape) |
| PostToX.TruncatedTweetFits | post_to_x.py:136-140 | when the summary has at least excess+5 characters, the truncated post is 276 − len(hashtag) characters long and therefore within 280 |
| PostToX.TweetCarriesUrl | post_to_x.py:133-140 | every post starts with the headline and carries the URL on its own line, followed by "#AI" |
| PostToX.PostShape | post_to_x.py:133 | the headline is a prefix of the post, and the URL line follows a blank line |
| PostToX.PostStep | post_to_x.py:119-152 | an item already in the history changes nothing; otherwise the history grows by the item's id iff the post succeeds; a failed post leaves history, saves, sent posts and counter as they were |
| PostToX.PostStepConsistent | post_to_x.py:147-149 | one posting step keeps the invariant: the history only grows, new ids are distinct and not previously posted, one save and one post per new id, the counter counts them, and save k holds the history right after post k |
| PostToX.PostItemsConsistent | post_to_x.py:119-152 | posting a report's items keeps that invariant |
| PostToX.PostItems | post_to_x.py:119-152 | the inner loop over one report's items as a left fold of PostStep (its invariant is PostItemsConsistent) |
| PostToX.PostReportsConsistent | post_to_x.py:116-152 | posting all reports from the loaded history keeps that invariant |
| PostToX.PostReports | post_to_x.py:116-152 | the outer loop over the report files as a left fold of PostItems over ParseReport (see PostReportsConsistent, PostReportsStep) |
| PostToX.PostedItemsStayPosted | post_to_x.py:147 | the history before posting is a prefix of the history after: nothing posted is ever removed |
| PostToX.PostReportsStep | post_to_x.py:116-117 | the reports are processed in order, one report's items after the previous report's |
| PostToX.PostReportItems | post_to_x.py:119-152 | the inner loop computes exactly the specified fold over the report's items |
| PostToX.PostNewItems | post_to_x.py:92-152 | without a client nothing is posted or saved; otherwise the result is the fold over all reports, and it satisfies the history invariant |
| BuildSite.LexLeTotal | build_site.py:49 | the order `sort` uses on directory names is total |
| BuildSite.LexLeTransitive | build_site.py:49 | that order is transitive |
| BuildSite.LexLeAntisymmetric | build_site.py:49 | that order is antisymmetric |
| BuildSite.LatestReportDate | build_site.py:44-50 | None iff there are no date folders; otherwise a listed folder that is greatest in string order |
| BuildSite.CardOf | build_site.py:66-109 | a card exists iff the body is neither empty nor a sentinel; it keeps the section's tool; its URL is the stripped URL field or "#", its why the stripped Why field or "Check details in post.", its summary the stripped, unbolded Summary field (then without "**") or the body with newlines as "<br>"; summary and why are single lines |
| BuildSite.WhyOf | build_site.py:89 | the why text is a single line |
| BuildSite.SummaryOf | build_site.py:83-87 | the summary is a single line, because the fallback turns every newline into "<br>"; a labelled one has no "**" |
| BuildSite.CardDefaults | build_site.py:76-89 | when a field is not found, or its label is absent, the URL is "#", why is "Check details in post.", and the summary is the body with newlines as "<br>" |
| BuildSite.SkipsSameSectionsAsPosters | build_site.py:72-73 | the site skips exactly the sections the X and LINE readers skip |
| BuildSite.CardsOf | build_site.py:66-109 | every card is the card of some section, and every section with news contributes its card |
| BuildSite.CardsOfSnoc | build_site.py:66-109 | cards come out in section order: one more section appends its card, if any, at the end |
| BuildSite.ParseMarkdownFile | build_site.py:52-119 | a category block is produced iff the report's parsed sections yield some card; its cards are exactly those cards, in section order, and its title is the captured category, or "Uncategorized" |
| BuildSite.BlockIffSomeNews | build_site.py:111-119 | a file contributes a block iff some section has news |
| BuildSite.BlockOf | build_site.py:141 | the block a report file contributes: it exists iff some parsed section of the file has news |
| BuildSite.BlocksOfSnoc | build_site.py:139-141 | blocks come out in file order: one more file appends its block, if any, at the end |
| BuildSite.InsertByPath | build_site.py:135 | inserting keeps the file list sorted and is a permutation |
| BuildSite.SortByPath | build_site.py:135 | `all_md_files.sort()`: the result is sorted by path and is a permutation of the input |
| BuildSite.BlocksOf | build_site.py:139-141 | every block is the block of one of the files, every file that yields a block contributes it, and no block is empty |
| BuildSite.Build | build_site.py:121-150 | no page without a report date; the page is for the latest date; its blocks are those of that date's files taken in sorted path order, and the placeholder is shown iff there are none |
| BuildSite.NoBlocksIffNoCards | build_site.py:143-144 | no blocks iff no file yields a block |
| BuildSite.PlaceholderIffNoCards | build_site.py:143-144 | the no-news placeholder appears iff no file of the latest day has a card |
| PostToLine.LineSummary | post_to_line.py:71 | the summary for LINE is a single line without "**" |
| PostToLine.LineItemIff | post_to_line.py:64-72 | a section gives a LINE item iff its body has news and the Summary label matches; the URL plays no part |
| PostToLine.LineItemOf | post_to_line.py:59-72 | the LINE item of one section: "🔹 " + tool + "\n" + the first 50 characters of the cleaned summary + "..." (see LineItemIff, ItemTextDecodes, LineItemShaped) |
| PostToLine.XItemGivesLineItem | post_to_line.py:67-72 | every section that gives an X post also gives a LINE item |
| PostToLine.ToolIsOneLine | post_to_line.py:61 | the tool name is a single line |
| PostToLine.ItemTextDecodes | post_to_line.py:72 | the item text reads back as "🔹 ", the tool, a newline, the first 50 characters of the summary and "..." |
| PostToLine.ItemTextInjective | post_to_line.py:72 | different tools, or different first 50 summary characters, give different item texts |
| PostToLine.LineItems | post_to_line.py:50-74 | every item is the item of some parsed section, and every section that gives an item contributes it |
| PostToLine.ItemTextShaped | post_to_line.py:72 | every item text has the digest item shape: it starts with "🔹" and has no break before a dot |
| PostToLine.LineItemShaped | post_to_line.py:59-72 | every parsed item has that shape |
| PostToLine.DigestItemsShaped | post_to_line.py:44-46 | every collected item has that shape |
| PostToLine.DigestItems | post_to_line.py:43-46 | `all_items.extend(...)` over the files: the items of each file, files in the order given (see DigestItemsShaped) |
| PostToLine.Shown | post_to_line.py:128 | `items[:10]`: the first min(10, n) items, in order |
| PostToLine.DigestText | post_to_line.py:125-134 | the message starts with the dated header and ends with the site-URL footer |
| PostToLine.ComposeDigest | post_to_line.py:109-134 | a message exists iff the hour is 7 JST and there is at least one item; it is then the digest text |
| PostToLine.DigestShowsFirstTen | post_to_line.py:128 | each of the first ten items appears in the message |
| PostToLine.OverflowIffMoreThanTen | post_to_line.py:130-131 | "...and N more." appears iff there are more than ten items |
| PostToLine.JoinContains | post_to_line.py:128 | every joined item appears in the join |
| PostToLine.JoinShapedClean | post_to_line.py:128 | items joined by blank lines never produce a blank line followed by "." |
| PostToLine.HeaderClean | post_to_line.py:125 | the header has no blank line followed by "." |
| PostToLine.FooterShape | post_to_line.py:134 | the footer starts with a blank line and has no blank line followed by "." |
| TranslateReportsV2.JapaneseCount | translate_reports_v2.py:32 | the count of kana and CJK characters is at most the text length |
| TranslateReportsV2.IsLikelyEnglishIff | translate_reports_v2.py:17-33 | false when the text has both "**Summary**:" and "集"; otherwise true iff two different ones of the 22 words occur as whole words in the lowercased text and fewer than 10 kana/CJK characters occur |
| TranslateReportsV2.IsLikelyEnglish | translate_reports_v2.py:17-33 | the English test as written (its meaning is stated by IsLikelyEnglishIff) |
| TranslateReportsV2.BlockEnd | translate_reports_v2.py:104-110 | the block scan stops at the end or at a line whose stripped form starts with "- Time:", "- URL:" or "- Post:" |
| TranslateReportsV2.BlockEndSkips | translate_reports_v2.py:104-110 | no line before that stop ends the block |
| TranslateReportsV2.PostLineHasTag | translate_reports_v2.py:99-100 | a post line contains "- Post:", so `find` locates it |
| TranslateReportsV2.TranslationOf | translate_reports_v2.py:112-120 | a translation is used iff the content is non-empty and likely English and the translator gives a non-empty answer, and it is that answer |
| TranslateReportsV2.GatherStep | translate_reports_v2.py:105-110 | each continuation line is added with one space when it is non-empty and does not start with "#", and is skipped otherwise |
| TranslateReportsV2.ReadBlock | translate_reports_v2.py:100-112 | the inner loop stops at the block end and gathers the specified post content |
| TranslateReportsV2.KeepLines | translate_reports_v2.py:128-131 | the untranslated block's lines are copied in order |
| TranslateReportsV2.ProcessReportLines | translate_reports_v2.py:90-135 | the scan computes exactly the specified rewrite of the line list and its `modified` flag |
| TranslateReportsV2.RewriteFrom | translate_reports_v2.py:90-135 | the specification of the line rewrite, by recursion over the lines from index i: a post block is replaced by one translated line or kept (see ProcessReportLines, RewriteKeepsTimeUrlLines, UnmodifiedIsIdentity, RewriteNoLonger) |
| TranslateReportsV2.ToolName | translate_reports_v2.py:86 | the tool name is the file stem with each '_' turned into a space and every other character kept in place, so it has no '_' |
| TranslateReportsV2.ProcessReportFile | translate_reports_v2.py:78-142 | the file is rewritten, as the rewritten lines joined by newlines, iff some block was replaced |
| TranslateReportsV2.UnmodifiedIsIdentity | translate_reports_v2.py:127-135 | with no replacement the rewrite returns the input lines |
| TranslateReportsV2.UnmodifiedFileUnchanged | translate_reports_v2.py:137-142 | with no replacement the joined output equals the file content |
| TranslateReportsV2.RewriteNoLonger | translate_reports_v2.py:120-125 | rewriting never adds lines |
| TranslateReportsV2.RewriteKeepsTimeUrlLines | translate_reports_v2.py:123-124 | the "- Time:"/"- URL:" lines of the rewritten line list are those of the input, in order |
| TranslateReportsV2.TranslatedLineNotTimeUrl | translate_reports_v2.py:121 | a translated "- Post:" line is never taken for a Time or URL line |
| TranslateReportsV2.BlockHasNoTimeUrl | translate_reports_v2.py:104-107 | a replaced block holds no Time or URL line |
| TranslateReportsV2.TimeUrlLinesAppend | translate_reports_v2.py:133 | collecting Time/URL lines distributes over concatenation |
| TranslateReports.IsEnglishPostIff | translate_reports.py:16-27 | false when the text has "**Summary**:" or "**Why**:"; otherwise true iff two different ones of the 10 words occur as whole words in the lowercased text |
| TranslateReports.IsEnglishPost | translate_reports.py:16-27 | the older English test as written (its meaning is stated by IsEnglishPostIff) |
| TranslateReports.EnglishPostIsLikelyEnglish | translate_reports.py:22-27 | an English post by this test with fewer than 10 kana/CJK characters is also likely English by the later test |
| TranslateReports.PostEnd | translate_reports.py:83 | the greedy post group ends before a newline, past the "- Post: " prefix |
| TranslateReports.PostEndSound | translate_reports.py:83 | what it spans is "- Post: " followed by non-empty lines whose continuations do not start with "- Time:" or "- URL:" |
| TranslateReports.PostLinesEnd | translate_reports.py:83 | the continuation lines run as far as they can |
| TranslateReports.MatchAt | translate_reports.py:82-85 | a unit found at a position spans prefix, post, Time line and URL line, in that order |
| TranslateReports.MatchAfterPost | translate_reports.py:83 | the Time line follows the post group directly |
| TranslateReports.MatchAfterTime | translate_reports.py:83 | the URL line follows the Time line directly |
| TranslateReports.MatchAtSound | translate_reports.py:82-85 | every unit found has the regex's shape |
| TranslateReports.MatchAtComplete | translate_reports.py:82-85 | every text of the regex's shape at a position is found there, with the same groups |
| TranslateReports.MatchText | translate_reports.py:91-94 | a unit's text is exactly prefix + post + "\n" + Time line + "\n" + URL line |
| TranslateReports.KeepAllIsIdentity | translate_reports.py:109 | a substitution that keeps every unit gives back the text |
| TranslateReports.Substitute | translate_reports.py:109 | `re.sub` as a left-to-right scan: at each position a found unit is replaced by the callback's text or kept, and otherwise one character is copied (see KeepAllIsIdentity, MatchAtSound, MatchAtComplete) |
| TranslateReports.Translation | translate_reports.py:96-107 | a unit is replaced iff its stripped post is English and the translator answers |
| TranslateReports.TranslateMatchKeepsTimeUrl | translate_reports.py:102-105 | a translated unit is "- Post: " + the answer and keeps the Time and URL lines exactly |
| TranslateReports.ProcessReportFile | translate_reports.py:109-115 | the new content is the report with every post block substituted under the file's tool name, and it is written iff it differs from the old |
| TranslateReports.NoTranslationNoWrite | translate_reports.py:96-115 | with no unit translated the file is not written |
| CollectAiNews.LStrip | collect_ai_news.py:123 | `lstrip('@')`: the result is a suffix with no leading '@', and only '@'s were removed |
| CollectAiNews.Cleaned | collect_ai_news.py:123 | each raw handle is cleaned in place |
| CollectAiNews.HandlesContent | collect_ai_news.py:118-125 | the collected handles are distinct, and are exactly the non-empty cleaned handles |
| CollectAiNews.HandlesOf | collect_ai_news.py:118-125 | the handles in first-seen order, as a fold over the raw handles (see HandlesContent, HandlesPrefix) |
| CollectAiNews.HandlesPrefix | collect_ai_news.py:120-125 | handles keep first-seen order: those from a prefix of the accounts are a prefix of all |
| CollectAiNews.FirstHandles | collect_ai_news.py:128 | `[:10]`: the first min(10, n) handles, in order |
| CollectAiNews.CollectHandles | collect_ai_news.py:118-128 | the loop computes the first ten distinct cleaned handles |
| CollectAiNews.AllowedHandles | collect_ai_news.py:118-128 | at most ten handles, distinct, none empty, each a cleaned account name |
| CollectAiNews.FirstOutputText | collect_ai_news.py:187-190 | a text is found iff some content item is an `output_text` |
| CollectAiNews.FirstOutputTextAt | collect_ai_news.py:187-190 | the text found is that of the first `output_text` item |
| CollectAiNews.ResponseTextAt | collect_ai_news.py:184-192 | the response text is that of the first message output that yields non-empty text |
| CollectAiNews.ResponseText | collect_ai_news.py:181-192 | the text of the first message output that yields some (see ResponseTextAt, ResponseTextEmpty) |
| CollectAiNews.ResponseTextEmpty | collect_ai_news.py:184-195 | the text is empty iff no message output yields text |
| CollectAiNews.ScanContent | collect_ai_news.py:187-190 | the inner loop finds that text |
| CollectAiNews.ScanOutput | collect_ai_news.py:181-192 | the outer loop finds the response text |
| CollectAiNews.CleanJson | collect_ai_news.py:198 | the text handed to `json.loads` contains no "```" |
| CollectAiNews.CleanJsonUnfenced | collect_ai_news.py:198 | a text without backticks is only stripped |
| CollectAiNews.AttemptsUsed | collect_ai_news.py:171 | between 1 and 3 attempts are made |
| CollectAiNews.GetCategoryNews | collect_ai_news.py:170-221 | the retry loop computes the specified outcome and attempt count |
| CollectAiNews.Fetch | collect_ai_news.py:171-221 | the outcome of attempts from the given one on: retryable replies move to the next attempt, and after three the retries error (see FetchDecidedAt, RetriesErrorIff) |
| CollectAiNews.FetchDecidedAt | collect_ai_news.py:171-214 | the first attempt that is not a 429, 500 or timeout decides the result; it uses k+1 attempts |
| CollectAiNews.AnswerIsNotRetriesError | collect_ai_news.py:175-221 | a deciding attempt never reports "Failed after 3 retries" |
| CollectAiNews.RetriesErrorIff | collect_ai_news.py:205-218 | "Error: Failed after 3 retries" comes back iff all three attempts were 429, 500 or timeouts, and then all three were used |
| CollectAiNews.ToolStem | collect_ai_news.py:266 | the tool part of the file name has no space and no '/' |
| CollectAiNews.FileNameParts | collect_ai_news.py:265-267 | the name is tool stem, "_", the first 8 characters of the hash of the URL, ".json" |
| CollectAiNews.ItemStep | collect_ai_news.py:247-322 | a non-object item aborts the batch; an item is saved iff it has news, its file does not exist yet, its text is longer than 15 characters and the analyzer does not reject it; the record has the category, tool, date (default "Unknown Date"), URL and time stamp, and the analysis's summary, why and score, defaulting to the post text, "詳細をご確認ください。" and 3 |
| CollectAiNews.CollectWritesNewFiles | collect_ai_news.py:271-274 | no file is written that existed before, and no file is written twice in a batch |
| CollectAiNews.Collect | collect_ai_news.py:247-322 | the files written by the item loop from item i on, each item judged against the names existing by then (see CollectWritesNewFiles, RerunWritesNothing) |
| CollectAiNews.RerunWritesNothing | collect_ai_news.py:271-274 | a second run of the same batch over the written files writes nothing |
| CollectAiNews.CollectAdvance | collect_ai_news.py:247-322 | the per-item loop advances by one item step, and a written name joins the directory |
| CollectAiNews.ForX | collect_ai_news.py:65-66 | the delivered copy has id == url and the record unchanged |
| CollectAiNews.HandleItem | collect_ai_news.py:248-322 | the loop body computes the specified item step |
| CollectAiNews.ProcessCategory | collect_ai_news.py:224-328 | a batch result that is an error message or not a list writes nothing; otherwise the written files are the item steps in order, and exactly one delivery copy goes out per written record |
| CollectGeneralNews.AnyKeywordIff | collect_general_news.py:55 | `any(...)` holds iff some lowercased keyword occurs in the content |
| CollectGeneralNews.IsAiNewsIff | collect_general_news.py:52-55 | true iff some lowercased keyword is a substring of lower(title + " " + summary) |
| CollectGeneralNews.IsAiNews | collect_general_news.py:52-55 | the keyword test as written (its meaning is stated by IsAiNewsIff) |
| CollectGeneralNews.LowerAppend | collect_general_news.py:54 | lowercasing distributes over concatenation |
| CollectGeneralNews.TitleKeywordSuffices | collect_general_news.py:52-55 | a keyword in the title alone makes the entry AI news |
| CollectGeneralNews.KeywordInsideWord | collect_general_news.py:55 | matching is by substring, so "Rain" counts as AI news because of "ai" |
| CollectGeneralNews.DateText | collect_general_news.py:84-88 | `published` is preferred over `updated` |
| CollectGeneralNews.EntryDate | collect_general_news.py:90-100 | a date exists iff the date text is non-empty and parses; a naive date gets UTC and an aware one is kept |
| CollectGeneralNews.NaiveDateIsUtc | collect_general_news.py:94-95 | a naive date's instant is its wall-clock value read as UTC |
| CollectGeneralNews.Tagged | collect_general_news.py:80-82 | a feed's entries, in order, each with the feed's source |
| CollectGeneralNews.StreamStep | collect_general_news.py:77-82 | feeds are read in order |
| CollectGeneralNews.KeptIff | collect_general_news.py:99-127 | an entry is collected iff it is dated, recent, AI news, and no earlier recent entry had the same link |
| CollectGeneralNews.KeptPrefix | collect_general_news.py:114-115 | whether an entry is kept depends only on the entries before it |
| CollectGeneralNews.Marks | collect_general_news.py:114-127 | one keep-or-skip decision per entry |
| CollectGeneralNews.OriginsIndexMarks | collect_general_news.py:120-127 | the entries behind the articles are, in increasing order, exactly the kept ones |
| CollectGeneralNews.SelectedFromOrigins | collect_general_news.py:120-127 | each article is built from its entry |
| CollectGeneralNews.SelectedAreKeptInOrder | collect_general_news.py:77-127 | the articles are exactly the kept entries, in feed and entry order |
| CollectGeneralNews.Selected | collect_general_news.py:77-127 | the specification of the selection: the article of each kept entry, in stream order (see SelectedAreKeptInOrder, SelectedUrlsDistinct) |
| CollectGeneralNews.SelectedUrlsDistinct | collect_general_news.py:114-115 | no two collected articles share a URL |
| CollectGeneralNews.SelectedAreRecentAiNews | collect_general_news.py:102-119 | every article is dated within the last 24 hours and passes the keyword test |
| CollectGeneralNews.SelectStep | collect_general_news.py:114-127 | one entry: it is kept iff recent, unseen and AI news, and a recent link is marked seen before the keyword test |
| CollectGeneralNews.ScanEntry | collect_general_news.py:84-127 | the loop body computes that step |
| CollectGeneralNews.ScanFeed | collect_general_news.py:82-127 | the entry loop extends the articles and the seen set by one feed |
| CollectGeneralNews.CollectFromRss | collect_general_news.py:74-130 | the nested loops return the specified selection over all feeds |
| CollectGeneralNews.ItemsToSave | collect_general_news.py:135-140 | without the translator the articles are saved as they are, one item each |
| CollectGeneralNews.SafeTitle | collect_general_news.py:150 | at most 50 characters; alphanumeric characters kept and every other character turned into '_' |
| CollectGeneralNews.SafeTitleChars | collect_general_news.py:150 | a safe title holds only alphanumeric characters and '_' |
| CollectGeneralNews.ReportNameLayout | collect_general_news.py:151 | the name is "GEN_", the count's digits, then "_" |
| CollectGeneralNews.ReportNamesDiffer | collect_general_news.py:151 | different counts give different file names, whatever the titles |
| CollectGeneralNews.ReportTextShape | collect_general_news.py:155-161 | the file starts with "# " and the Japanese title, or the title when there is none; it ends with the Why line iff a reason is present, otherwise with the summary section |
| CollectGeneralNews.ReportText | collect_general_news.py:155-161 | the Markdown written for an item: title heading, Source/Date/URL lines, the "## Summary" section, then the Why line when there is a reason (see ReportTextShape) |
| CollectGeneralNews.SaveReports | collect_general_news.py:143-161 | report k (counting from 1) is named after k and its item's title and holds its text; all names differ |
| CollectGeneralNews.SavedNamesDistinct | collect_general_news.py:151 | the saved file names are pairwise distinct |
| CollectGeneralNews.CollectGeneral | collect_general_news.py:57-165 | end to end: one report per item to save, in order, with its name and text |
| BatchReanalyze.Update | batch_reanalyze.py:52-54 | summary, why and score are set and every other key keeps its value |
| BatchReanalyze.Reanalyzed | batch_reanalyze.py:25-64 | the refresh raises iff the record has a "score" and its `why` is not a string (without a score, `or` stops before `why` is read); a record is rewritten iff it is legacy (no "score", or a why containing "詳細をご確認ください" or "Check details") and the analyzer returns a result, and the rewrite is the three-field update |
| BatchReanalyze.Legacy | batch_reanalyze.py:35 | `is_legacy`: no "score", or a why containing one of the two placeholders; None when there is a "score" and `why` is not a string (see Reanalyzed, CurrentReportKept, DefaultRecordIsLegacy) |
| BatchReanalyze.CrashIff | batch_reanalyze.py:35 | a record raises in `is_legacy` iff it has a "score" and a `why` that is not a string; a record without a score never raises |
| BatchReanalyze.AfterStep | batch_reanalyze.py:56-57 | only a rewrite changes the file |
| BatchReanalyze.RewritesAtMost | batch_reanalyze.py:59 | updates never outnumber the files, and are zero iff no file is rewritten |
| BatchReanalyze.Reached | batch_reanalyze.py:35 | the run gets through every file before the first one that has a "score" and a `why` that is not a string, which ends it |
| BatchReanalyze.ReanalyzeFile | batch_reanalyze.py:25-64 | the loop body computes the specified step |
| BatchReanalyze.ProcessedStep | batch_reanalyze.py:56-57 | handling file i changes only file i |
| BatchReanalyze.Run | batch_reanalyze.py:11-67 | the counter counts the files reached and the run crashes iff some file raises; `updated` counts the rewrites among the files reached; exactly those files are rewritten as specified; updated ≤ count ≤ total |
| BatchReanalyze.ReachedStops | batch_reanalyze.py:35 | the run stops at the first crashing file |
| BatchReanalyze.ReachedAll | batch_reanalyze.py:21 | without a crashing file every file is reached |
| BatchReanalyze.CurrentReportKept | batch_reanalyze.py:37-39 | a record with a score and a why without placeholder text is never rewritten |
| BatchReanalyze.RewriteIsFinal | batch_reanalyze.py:35-57 | once refreshed with a real why, a second run leaves the record alone |
| BatchReanalyze.DefaultWhyHasPlaceholder | collect_ai_news.py:261 | the collector's default why contains the placeholder the refresh looks for |
| BatchReanalyze.DefaultRecordIsLegacy | batch_reanalyze.py:35 | a record saved with the default why is always selected for the refresh |
| BatchReanalyze.UnanalyzedItemIsLegacy | collect_ai_news.py:260-316 | a record the collector saved without an analysis is selected by the refresh |

## Left out

- Network services are oracles, passed as function parameters:
  - xAI `requests.post`: one reply per attempt;
  - the Gemini analyzer and translators;
  - Tweepy `create_tweet`: success or failure per attempt;
  - LINE broadcast: the message is the result.
  
  The prompts, payloads and `tools_desc` only feed those requests and are
  not modelled.
- The filesystem is modelled as values:
  - file contents are strings;
  - a directory is a sequence of files, or the set of names that exist;
  - a written file is a result value.
  
  `glob` order is an input, since Python leaves it unspecified.
  `.env` loading, `makedirs` and the history-file format are not modelled.
- Clocks and dates are inputs:
  - the JST hour in post_to_line.py;
  - "now" and parsed instants in collect_general_news.py;
  - the `collected_at` stamp.
  
  `dateutil` parsing is an oracle that returns a wall-clock value and an
  optional UTC offset.
- `json.loads` and `json.dump` are left out. The decoded batch is a value
  that is a list of items, a string, or something else. A saved record is
  a map from keys to string, number or null values.
- MD5 is an uninterpreted function from the URL to its hex digest.
- The git add/commit/pull/push and the site rebuild subprocess in
  `realtime_delivery` are process I/O. They are not modelled.
- `post_item_to_x` is imported from post_to_x.py but is not defined in that
  file. Delivery is modelled only as the `x_item` copy with id = url.
- CollectAiNews.ProcessCategory: collect_ai_news.py imports
  `post_item_to_x` at module level (line 9). post_to_x.py does not define
  it, so as written the collector stops with `ImportError` before any
  category runs. The model assumes a delivery function exists.
- CollectAiNews.ProcessCategory and CollectAiNews.ItemStep: an exception
  raised inside the item loop is caught by the outer `except`
  (collect_ai_news.py:324), which abandons the rest of the category's batch.
  Such exceptions include `gemini_result.get` on a text result (line 290), a
  failing `post_item_to_x` (line 68), and any non-`CalledProcessError` from
  `subprocess.run`. The model always goes on to the next item and always
  delivers each saved record.
- PostToX.PostStep: `create_tweet` may succeed and then reading
  `response.data['id']` or `save_history` may raise (post_to_x.py:145-148).
  The post has then gone out but is counted as a failure. After a failed
  save, the in-memory history already holds the id. The model treats every
  failure as "nothing posted" and leaves the history unchanged.
- PostToLine.DigestItems: the LINE parser needs a `**Summary**` label
  (post_to_line.py:67). The general-news files it reads write a
  `## Summary` heading instead (collect_general_news.py:159). So their
  summary section becomes a section whose tool is "Summary" and that gives
  no item. The model keeps this behaviour but has no lemma that connects
  the two scripts.
- `IO_LOCK` and threading: categories run one after another, so no
  concurrency is modelled. `time.sleep` back-offs are left out, as is all
  printed output.
- The HTML template and card markup of build_site.py are not modelled.
  A card is its four fields, and the page is the date plus either blocks
  or the placeholder.
- The `ai_client` module is not part of this model. Its selection and
  translation step is an optional function from articles to items, and
  its absence is the `ImportError` path.
- Per-feed exceptions in collect_general_news.py are not modelled. A feed
  is given as its list of entries. Every date is made offset-aware
  before the comparison with the cutoff, so that comparison cannot raise in
  the model.
- Text.Lower: lowercases ASCII letters only, whereas Python's `str.lower`
  also folds non-ASCII letters. All the keywords and word patterns it is
  compared with are ASCII or Japanese.
- Text.IsWordChar: the regex class `\w` is modelled as ASCII letters,
  digits, '_', kana and CJK ideographs. This is not the full Unicode
  class.
- CollectAiNews.ItemStep: `has_news` is read as its truth value. Item
  fields are read as strings; a non-string `post_text` or `tool_name`,
  which would raise, is not modelled.
- BatchReanalyze.Reanalyzed: a non-object JSON file, and a list or
  dictionary `why`, are not modelled. A record that has a "score" and a
  non-string `why` raises `TypeError` in `is_legacy`, which is outside the
  `try`, so it is modelled as a crash that ends the run. Without a "score"
  the `or` stops before `why` is read, and nothing raises.
- BatchReanalyze.Reanalyzed: the analyzer is modelled as its caller reads
  it, an oracle that returns a record with summary, why and score, or
  nothing. The `filter_x_updates_with_gemini` in gemini_x_filter.py
  returns text instead. With that text, `result["summary"]` raises inside
  the `try`, the `except` skips the file, and the batch rewrites nothing.
  That text-returning combination is not modelled.
- TranslateReportsV2.RewriteKeepsTimeUrlLines: states the Time and URL lines
  of the rewritten line list. A translation that itself contains a line
  break becomes several lines once the list is joined and read back, and
  those are not covered.
- PostToX.TruncatedTweetFits: when the summary is shorter than the excess
  plus five characters, it becomes "..." alone and nothing bounds the
  post's length. That case is stated only as the lemma's precondition.
