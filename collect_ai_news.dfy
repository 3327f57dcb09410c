/**
 * collect_ai_news.py: per category, collect the X handles to search,
 * query the xAI Responses API (up to three attempts), pull the answer text
 * out of the response, strip markdown fences, and save one JSON record per
 * news item whose file does not exist yet, handing each saved record on
 * for real-time delivery.  The API, the JSON decoder, the Gemini analyzer,
 * MD5 and the clock are parameters.
 */
module CollectAiNews {
  import opened Wrappers
  import opened Text

  // ---------------------------------------------------------------------
  // Handle collection (get_category_news, the loop over tools_list)
  // ---------------------------------------------------------------------

  /** A monitored tool from targets.json: its name and its X accounts. */
  datatype Tool = Tool(name: string, accounts: seq<string>)

  /** The x_search tool accepts at most this many handles. */
  const MaxHandles := 10

  /** `s.lstrip(c)`: the suffix of `s` after its leading run of `c`. */
  function LStrip(s: string, c: char): (r: string)
    ensures |r| <= |s| && r == s[|s| - |r|..]
    ensures r != [] ==> r[0] != c
    ensures forall i :: 0 <= i < |s| - |r| ==> s[i] == c
    decreases |s|
  {
    if s != [] && s[0] == c then
      var r := LStrip(s[1..], c);
      assert forall i :: 1 <= i < |s| - |r| ==> s[i] == s[1..][i - 1];
      r
    else s
  }

  /** `acc.lstrip('@').strip()` */
  function CleanHandle(acc: string): string
  {
    Strip(LStrip(acc, '@'))
  }

  /** Every account of every tool, in order. */
  function RawAccounts(tools: seq<Tool>): seq<string>
    decreases |tools|
  {
    if tools == [] then [] else RawAccounts(tools[..|tools| - 1]) + tools[|tools| - 1].accounts
  }

  /** One account: its cleaned handle is appended unless empty or already there. */
  function AddHandle(handles: seq<string>, acc: string): seq<string>
  {
    var h := CleanHandle(acc);
    if h != "" && h !in handles then handles + [h] else handles
  }

  /** `all_accounts` after the accounts `raw` have been seen, in order. */
  function HandlesOf(raw: seq<string>): (r: seq<string>)
    decreases |raw|
  {
    if raw == [] then [] else AddHandle(HandlesOf(raw[..|raw| - 1]), raw[|raw| - 1])
  }

  /** The handles hold no empty text and no repeat. */
  predicate Distinct(handles: seq<string>)
  {
    forall i, j :: 0 <= i < j < |handles| ==> handles[i] != handles[j]
  }

  /** Every account cleaned, in order. */
  function Cleaned(raw: seq<string>): (r: seq<string>)
    ensures |r| == |raw| && forall k :: 0 <= k < |raw| ==> r[k] == CleanHandle(raw[k])
    decreases |raw|
  {
    if raw == [] then [] else Cleaned(raw[..|raw| - 1]) + [CleanHandle(raw[|raw| - 1])]
  }

  /**
   * The collected handles are distinct and non-empty, and they are exactly
   * the non-empty cleaned accounts.
   */
  lemma {:induction false} HandlesContent(raw: seq<string>)
    ensures Distinct(HandlesOf(raw))
    ensures forall h :: h in HandlesOf(raw) <==> h != "" && h in Cleaned(raw)
    decreases |raw|
  {
    if raw != [] {
      var init := raw[..|raw| - 1];
      var c := CleanHandle(raw[|raw| - 1]);
      HandlesContent(init);
      var prev := HandlesOf(init);
      assert Cleaned(raw) == Cleaned(init) + [c];
      assert forall h :: h in Cleaned(raw) <==> h in Cleaned(init) || h == c;
      if c != "" && c !in prev {
        assert HandlesOf(raw) == prev + [c];
        assert forall h :: h in HandlesOf(raw) <==> h in prev || h == c;
        forall i, j | 0 <= i < j < |prev| + 1 ensures HandlesOf(raw)[i] != HandlesOf(raw)[j] {
          if j < |prev| {
            assert HandlesOf(raw)[i] == prev[i] && HandlesOf(raw)[j] == prev[j];
          } else {
            assert HandlesOf(raw)[i] == prev[i] && prev[i] in prev;
          }
        }
      } else {
        assert HandlesOf(raw) == prev;
      }
    }
  }

  /**
   * First-seen order: the handles collected from a prefix of the accounts
   * are a prefix of the handles collected from all of them.
   */
  lemma {:induction false} HandlesPrefix(raw: seq<string>, n: nat)
    requires n <= |raw|
    ensures |HandlesOf(raw[..n])| <= |HandlesOf(raw)|
    ensures HandlesOf(raw[..n]) == HandlesOf(raw)[..|HandlesOf(raw[..n])|]
    decreases |raw|
  {
    if n < |raw| {
      var init := raw[..|raw| - 1];
      assert raw[..n] == init[..n];
      HandlesPrefix(init, n);
      var a := HandlesOf(init);
      var b := HandlesOf(raw[..n]);
      assert HandlesOf(raw)[..|a|] == a;
      assert HandlesOf(raw)[..|b|] == a[..|b|];
    } else {
      assert raw[..n] == raw;
    }
  }

  /** `all_accounts[:10]` */
  function FirstHandles(handles: seq<string>): (r: seq<string>)
    ensures |r| == (if |handles| < MaxHandles then |handles| else MaxHandles) && r == handles[..|r|]
  {
    handles[..if |handles| < MaxHandles then |handles| else MaxHandles]
  }

  lemma RawAccountsStep(tools: seq<Tool>, i: nat)
    requires i < |tools|
    ensures RawAccounts(tools[..i + 1]) == RawAccounts(tools[..i]) + tools[i].accounts
  {
    assert tools[..i + 1][..i] == tools[..i];
  }

  lemma HandlesStep(raw: seq<string>, acc: string)
    ensures HandlesOf(raw + [acc]) == AddHandle(HandlesOf(raw), acc)
  {
    assert (raw + [acc])[..|raw|] == raw;
  }

  /**
   * The handle loop of get_category_news: `allowed_handles` is the first
   * ten handles collected, in first-seen order, from every tool's accounts.
   */
  method CollectHandles(tools: seq<Tool>) returns (allowed: seq<string>)
    ensures allowed == FirstHandles(HandlesOf(RawAccounts(tools)))
  {
    var all: seq<string> := [];
    ghost var seen: seq<string> := [];
    var i := 0;
    while i < |tools|
      invariant 0 <= i <= |tools|
      invariant seen == RawAccounts(tools[..i]) && all == HandlesOf(seen)
    {
      var accounts := tools[i].accounts;
      var j := 0;
      assert accounts[..0] == [] && seen + accounts[..0] == seen;
      while j < |accounts|
        invariant 0 <= j <= |accounts|
        invariant seen == RawAccounts(tools[..i]) + accounts[..j] && all == HandlesOf(seen)
      {
        var clean := CleanHandle(accounts[j]);
        HandlesStep(seen, accounts[j]);
        if clean != "" && clean !in all {
          all := all + [clean];
        }
        PrefixStep(accounts, j);
        AppendAssoc(RawAccounts(tools[..i]), accounts[..j], [accounts[j]]);
        seen := seen + [accounts[j]];
        j := j + 1;
      }
      assert accounts[..j] == accounts;
      RawAccountsStep(tools, i);
      i := i + 1;
    }
    assert tools[..i] == tools;
    allowed := all[..if |all| < MaxHandles then |all| else MaxHandles];
  }

  /** The allowed handles are at most ten distinct non-empty cleaned accounts. */
  lemma AllowedHandles(tools: seq<Tool>)
    ensures var allowed := FirstHandles(HandlesOf(RawAccounts(tools)));
      |allowed| <= MaxHandles && Distinct(allowed) && "" !in allowed
      && forall h :: h in allowed ==> h in Cleaned(RawAccounts(tools))
  {
    var raw := RawAccounts(tools);
    var all := HandlesOf(raw);
    HandlesContent(raw);
    var allowed := FirstHandles(all);
    forall i, j | 0 <= i < j < |allowed| ensures allowed[i] != allowed[j] {
      assert allowed[i] == all[i] && allowed[j] == all[j];
    }
    forall h | h in allowed ensures h != "" && h in Cleaned(raw) {
      var k :| 0 <= k < |allowed| && allowed[k] == h;
      assert all[k] == h;
      assert h in all;
    }
  }

  // ---------------------------------------------------------------------
  // The answer text of a Responses API reply
  // ---------------------------------------------------------------------

  /** An entry of a message's `content` list: an object with optional "type" and "text", or anything else. */
  datatype ContentItem = ContentPart(kind: Option<string>, text: Option<string>) | ContentOther

  /** An entry of the reply's `output` list: an object with optional "type" and a `content` list, or anything else. */
  datatype OutputItem = OutputPart(kind: Option<string>, content: seq<ContentItem>) | OutputOther

  predicate IsOutputText(c: ContentItem)
  {
    c.ContentPart? && c.kind == Some("output_text")
  }

  predicate IsMessage(o: OutputItem)
  {
    o.OutputPart? && o.kind == Some("message")
  }

  /** The `text` of the first output_text entry (`""` when it has none), if there is such an entry. */
  function FirstOutputText(content: seq<ContentItem>): (r: Option<string>)
    ensures r.Some? <==> exists k :: 0 <= k < |content| && IsOutputText(content[k])
    decreases |content|
  {
    if content == [] then None
    else if IsOutputText(content[0]) then Some(content[0].text.GetOr(""))
    else
      var r := FirstOutputText(content[1..]);
      assert forall k :: 1 <= k < |content| ==> content[k] == content[1..][k - 1];
      r
  }

  /** The text a message contributes: its first output_text's text; `""` for anything else. */
  function MessageText(o: OutputItem): string
  {
    if IsMessage(o) then FirstOutputText(o.content).GetOr("") else ""
  }

  /** `text_content` after the scan: the first non-empty text a message contributes, else `""`. */
  function ResponseText(outputs: seq<OutputItem>): string
    decreases |outputs|
  {
    if outputs == [] then ""
    else if MessageText(outputs[0]) != "" then MessageText(outputs[0])
    else ResponseText(outputs[1..])
  }

  /** Only the first output_text entry of a message counts, even when its text is empty. */
  lemma {:induction false} FirstOutputTextAt(content: seq<ContentItem>, k: nat)
    requires k < |content| && IsOutputText(content[k])
    requires forall j :: 0 <= j < k ==> !IsOutputText(content[j])
    ensures FirstOutputText(content) == Some(content[k].text.GetOr(""))
    decreases k
  {
    if k > 0 {
      FirstOutputTextAt(content[1..], k - 1);
    }
  }

  /** The answer is the text of the first message that contributes one. */
  lemma {:induction false} ResponseTextAt(outputs: seq<OutputItem>, k: nat)
    requires k < |outputs| && MessageText(outputs[k]) != ""
    requires forall j :: 0 <= j < k ==> MessageText(outputs[j]) == ""
    ensures ResponseText(outputs) == MessageText(outputs[k])
    decreases k
  {
    if k > 0 {
      ResponseTextAt(outputs[1..], k - 1);
    }
  }

  /** There is no answer exactly when no message contributes text. */
  lemma {:induction false} ResponseTextEmpty(outputs: seq<OutputItem>)
    ensures ResponseText(outputs) == "" <==> forall k :: 0 <= k < |outputs| ==> MessageText(outputs[k]) == ""
    decreases |outputs|
  {
    if outputs != [] {
      ResponseTextEmpty(outputs[1..]);
      assert forall k :: 1 <= k < |outputs| ==> outputs[k] == outputs[1..][k - 1];
    }
  }

  /** The inner loop: the text of the first output_text entry, or `""`. */
  method ScanContent(content: seq<ContentItem>) returns (text: string)
    ensures text == FirstOutputText(content).GetOr("")
  {
    text := "";
    var j := 0;
    while j < |content|
      invariant 0 <= j <= |content|
      invariant FirstOutputText(content) == FirstOutputText(content[j..])
    {
      var c := content[j];
      if c.ContentPart? && c.kind == Some("output_text") {
        text := c.text.GetOr("");
        return;
      }
      assert content[j..][1..] == content[j + 1..];
      j := j + 1;
    }
  }

  /** The outer loop: stop at the first message whose first output_text has text. */
  method ScanOutput(outputs: seq<OutputItem>) returns (text: string)
    ensures text == ResponseText(outputs)
  {
    text := "";
    var i := 0;
    while i < |outputs|
      invariant 0 <= i <= |outputs|
      invariant text == "" && ResponseText(outputs) == ResponseText(outputs[i..])
    {
      var o := outputs[i];
      if o.OutputPart? && o.kind == Some("message") {
        text := ScanContent(o.content);
        if text != "" {
          return;
        }
      }
      assert outputs[i..][1..] == outputs[i + 1..];
      i := i + 1;
    }
  }

  // ---------------------------------------------------------------------
  // Fence stripping
  // ---------------------------------------------------------------------

  const Fence := "```"

  /** `text.replace("```json", "").replace("```", "").strip()` */
  function CleanJson(text: string): (r: string)
    ensures !Contains(r, Fence)
  {
    var unfenced := ReplaceAll(ReplaceAll(text, "```json", ""), Fence, "");
    RemoveUniformGone(ReplaceAll(text, "```json", ""), Fence);
    StripNotContains(unfenced, Fence);
    Strip(unfenced)
  }

  /** Text without a backquote is only stripped. */
  lemma CleanJsonUnfenced(text: string)
    requires '`' !in text
    ensures CleanJson(text) == Strip(text)
  {
    MissingCharNotContained(text, "```json", '`');
    MissingCharNotContained(text, Fence, '`');
  }

  // ---------------------------------------------------------------------
  // The request loop (get_category_news, up to three attempts)
  // ---------------------------------------------------------------------

  /** A JSON value as process_category looks at it: a list of items, a string, or anything else. */
  datatype Json = JList(items: seq<RawItem>) | JString(text: string) | JOther

  /**
   * An entry of the decoded list: an object whose fields may be missing
   * (has_news already read as its truth value), or anything else.
   */
  datatype RawItem =
    | Entry(toolName: Option<string>, hasNews: bool, postText: Option<string>, postDate: Option<string>, postUrl: Option<string>)
    | NotAnObject

  /**
   * What one attempt of `requests.post` gives: a response with its status
   * code, its raw text and the `output` list of its decoded body; a
   * timeout; or any other exception, with its message.
   */
  datatype Reply = Status(code: nat, body: string, outputs: seq<OutputItem>) | TimedOut | Raised(error: string)

  /** What get_category_news returns: a message string of its own, or the decoded JSON. */
  datatype Fetched = Reported(message: string) | Decoded(value: Json)

  const MaxAttempts := 3
  const NoTextError := "Error: No text content in API response"
  const RetriesError := "Error: Failed after 3 retries"
  const ParseErrorLead := "Error: Parsing failed. Raw: "

  /** 429 and 500 responses and timeouts use up an attempt and try again. */
  predicate Retryable(r: Reply)
  {
    r.TimedOut? || (r.Status? && (r.code == 429 || r.code == 500))
  }

  /**
   * The answer text decoded: no text is an error, an undecodable text is
   * reported with its first 200 characters, and `parse` (json.loads) sees
   * the text with its fences stripped.
   */
  function Decode(text: string, parse: string -> Option<Json>): Fetched
  {
    if text == "" then Reported(NoTextError)
    else
      match parse(CleanJson(text))
      case None => Reported(ParseErrorLead + Take(text, 200))
      case Some(v) => Decoded(v)
  }

  /** The result of an attempt that ends the loop. */
  function Answer(r: Reply, parse: string -> Option<Json>): Fetched
    requires !Retryable(r)
  {
    if r.Raised? then Reported("Exception: " + r.error)
    else if r.code == 200 then Decode(ResponseText(r.outputs), parse)
    else Reported("Error: " + NatToString(r.code) + " - " + Take(r.body, 500))
  }

  /** The loop from attempt `attempt` on; `reply(k)` is what attempt `k` gets. */
  function Fetch(reply: nat -> Reply, parse: string -> Option<Json>, attempt: nat): Fetched
    decreases MaxAttempts - attempt
  {
    if attempt >= MaxAttempts then Reported(RetriesError)
    else if Retryable(reply(attempt)) then Fetch(reply, parse, attempt + 1)
    else Answer(reply(attempt), parse)
  }

  /** How many requests the loop sends from attempt `attempt` on. */
  function AttemptsUsed(reply: nat -> Reply, attempt: nat): (n: nat)
    ensures attempt < MaxAttempts ==> 1 <= n <= MaxAttempts - attempt
    ensures attempt >= MaxAttempts ==> n == 0
    decreases MaxAttempts - attempt
  {
    if attempt >= MaxAttempts then 0
    else if Retryable(reply(attempt)) then 1 + AttemptsUsed(reply, attempt + 1)
    else 1
  }

  /**
   * get_category_news's request loop: at most three requests; a 429, a 500
   * or a timeout moves on to the next attempt, anything else ends the loop.
   */
  method GetCategoryNews(reply: nat -> Reply, parse: string -> Option<Json>) returns (result: Fetched, attempts: nat)
    ensures result == Fetch(reply, parse, 0) && attempts == AttemptsUsed(reply, 0)
  {
    var attempt := 0;
    while attempt < MaxAttempts
      invariant attempt <= MaxAttempts
      invariant Fetch(reply, parse, 0) == Fetch(reply, parse, attempt)
      invariant AttemptsUsed(reply, 0) == attempt + AttemptsUsed(reply, attempt)
    {
      var r := reply(attempt);
      if r.TimedOut? {
        attempt := attempt + 1;
        continue;
      }
      if r.Raised? {
        return Reported("Exception: " + r.error), attempt + 1;
      }
      if r.code == 200 {
        var text := ScanOutput(r.outputs);
        if text == "" {
          return Reported(NoTextError), attempt + 1;
        }
        var clean := CleanJson(text);
        var decoded := parse(clean);
        if decoded.None? {
          return Reported(ParseErrorLead + Take(text, 200)), attempt + 1;
        }
        return Decoded(decoded.value), attempt + 1;
      } else if r.code == 429 {
        attempt := attempt + 1;
        continue;
      } else if r.code == 500 {
        attempt := attempt + 1;
        continue;
      } else {
        return Reported("Error: " + NatToString(r.code) + " - " + Take(r.body, 500)), attempt + 1;
      }
    }
    return Reported(RetriesError), MaxAttempts;
  }

  /**
   * The first attempt that is not retried decides the result, after
   * exactly that many requests.
   */
  lemma {:induction false} FetchDecidedAt(reply: nat -> Reply, parse: string -> Option<Json>, attempt: nat, k: nat)
    requires attempt <= k < MaxAttempts && !Retryable(reply(k))
    requires forall j :: attempt <= j < k ==> Retryable(reply(j))
    ensures Fetch(reply, parse, attempt) == Answer(reply(k), parse)
    ensures AttemptsUsed(reply, attempt) == k + 1 - attempt
    decreases k - attempt
  {
    if attempt < k {
      FetchDecidedAt(reply, parse, attempt + 1, k);
    }
  }

  /** No reply that ends the loop produces the "Failed after 3 retries" message. */
  lemma AnswerIsNotRetriesError(r: Reply, parse: string -> Option<Json>)
    requires !Retryable(r)
    ensures Answer(r, parse) != Reported(RetriesError)
  {
    if r.Raised? {
      DiffersAt("Exception: " + r.error, RetriesError, 1);
    } else if r.code == 200 {
      var text := ResponseText(r.outputs);
      if text == "" {
        DiffersAt(NoTextError, RetriesError, 7);
      } else {
        DiffersAt(ParseErrorLead + Take(text, 200), RetriesError, 7);
      }
    } else {
      StatusErrorIsNotRetriesError(r.code, r.body);
    }
  }

  /** A status message has the code's first digit where "Failed" starts. */
  lemma StatusErrorIsNotRetriesError(code: nat, body: string)
    ensures "Error: " + NatToString(code) + " - " + Take(body, 500) != RetriesError
  {
    var digits := NatToString(code);
    var m := "Error: " + digits + " - " + Take(body, 500);
    assert m[7] == digits[0];
    DiffersAt(m, RetriesError, 7);
  }

  /** Texts that differ at one position differ. */
  lemma DiffersAt(a: string, b: string, k: nat)
    requires k < |a| && k < |b| && a[k] != b[k]
    ensures a != b
  {
  }

  /** The loop gives up exactly when all three attempts are retried. */
  lemma RetriesErrorIff(reply: nat -> Reply, parse: string -> Option<Json>)
    ensures Fetch(reply, parse, 0) == Reported(RetriesError)
        <==> Retryable(reply(0)) && Retryable(reply(1)) && Retryable(reply(2))
    ensures Fetch(reply, parse, 0) == Reported(RetriesError) ==> AttemptsUsed(reply, 0) == MaxAttempts
  {
    if !Retryable(reply(0)) {
      FetchDecidedAt(reply, parse, 0, 0);
      AnswerIsNotRetriesError(reply(0), parse);
    } else if !Retryable(reply(1)) {
      FetchDecidedAt(reply, parse, 0, 1);
      AnswerIsNotRetriesError(reply(1), parse);
    } else if !Retryable(reply(2)) {
      FetchDecidedAt(reply, parse, 0, 2);
      AnswerIsNotRetriesError(reply(2), parse);
    }
  }

  // ---------------------------------------------------------------------
  // Saving the news items (process_category)
  // ---------------------------------------------------------------------

  /**
   * What the Gemini analyzer gives for a post: None (not news), a result
   * holding "error", a result whose summary, why and score may each be
   * missing, or nothing at all because the analyzer module cannot be
   * imported.
   */
  datatype Analysis =
    | Rejected
    | AnalysisError(error: string)
    | Analyzed(summary: Option<string>, why: Option<string>, score: Option<int>)
    | Unavailable

  /** The JSON record saved for a news item. */
  datatype Record = Record(category: string, tool: string, summary: string, why: string, score: int,
                           postDate: string, url: string, collectedAt: string)

  /** A file written: its name in the report directory and its record. */
  datatype Saved = Saved(name: string, record: Record)

  /** What the loop does with one entry of the list. */
  datatype Step = Abort | Skip | Save(saved: Saved)

  const DefaultTool := "Unknown"
  const DefaultDate := "Unknown Date"
  const DefaultUrl := "#"
  const DefaultWhy := "詳細をご確認ください。"
  const DefaultScore := 3
  /** Posts this long or shorter are not news. */
  const MinPostLength := 15
  /** How many hex digits of the URL's MD5 the file name keeps. */
  const HashWidth := 8

  function ToolOf(item: RawItem): string
    requires item.Entry?
  {
    item.toolName.GetOr(DefaultTool)
  }

  function TextOf(item: RawItem): string
    requires item.Entry?
  {
    item.postText.GetOr("")
  }

  function UrlOf(item: RawItem): string
    requires item.Entry?
  {
    item.postUrl.GetOr(DefaultUrl)
  }

  /** `tool_name.replace(' ', '_').replace('/', '-')`: no space and no slash is left. */
  function ToolStem(tool: string): (r: string)
    ensures ' ' !in r && '/' !in r
  {
    var spaced := ReplaceAll(tool, " ", "_");
    ReplaceCharGone(tool, " ", "_");
    ReplaceAllKeepsOut(spaced, "/", "-", ' ');
    ReplaceCharGone(spaced, "/", "-");
    ReplaceAll(spaced, "/", "-")
  }

  /** `f"{count_str}_{url_hash}.json"`, `md5` giving the URL's hex digest. */
  function FileName(tool: string, url: string, md5: string -> string): string
  {
    ToolStem(tool) + "_" + Take(md5(url), HashWidth) + ".json"
  }

  /** The file name splits back into the tool's stem, at most eight digest characters and ".json". */
  lemma FileNameParts(tool: string, url: string, md5: string -> string)
    ensures var name := FileName(tool, url, md5);
      var stem := ToolStem(tool);
      StartsWith(name, stem + "_") && EndsWith(name, ".json")
      && |name| <= |stem| + 1 + HashWidth + 5
      && name[|stem| + 1..|name| - 5] == Take(md5(url), HashWidth)
  {
    var stem := ToolStem(tool);
    var digest := Take(md5(url), HashWidth);
    var name := stem + "_" + digest + ".json";
    AppendAssoc(stem + "_", digest, ".json");
    assert name[..|stem + "_"|] == stem + "_";
    assert name[|name| - 5..] == ".json";
    assert name[|stem| + 1..|name| - 5] == digest;
  }

  /**
   * One entry of the list: a non-object aborts the rest of the batch (the
   * surrounding `except`); an entry without news, whose file already
   * exists, whose post is too short, or that the analyzer rejects is
   * skipped; anything else is saved with its defaults filled in.
   */
  function ItemStep(category: string, item: RawItem, existing: set<string>, analyze: (string, string) -> Analysis,
                    md5: string -> string, stamp: string): (r: Step)
    ensures r.Abort? <==> item.NotAnObject?
    ensures r.Save? <==> item.Entry? && item.hasNews && FileName(ToolOf(item), UrlOf(item), md5) !in existing
                         && |TextOf(item)| > MinPostLength && !analyze(TextOf(item), ToolOf(item)).Rejected?
    ensures r.Save? ==> r.saved.name == FileName(ToolOf(item), UrlOf(item), md5)
    ensures r.Save? ==> var rec := r.saved.record;
      rec.category == category && rec.tool == ToolOf(item) && rec.postDate == item.postDate.GetOr(DefaultDate)
      && rec.url == UrlOf(item) && rec.collectedAt == stamp
    ensures r.Save? ==> var a := analyze(TextOf(item), ToolOf(item)); var rec := r.saved.record;
      (a.Analyzed? ==> rec.summary == a.summary.GetOr(TextOf(item)) && rec.why == a.why.GetOr(DefaultWhy)
                       && rec.score == a.score.GetOr(DefaultScore))
      && (!a.Analyzed? ==> rec.summary == TextOf(item) && rec.why == DefaultWhy && rec.score == DefaultScore)
  {
    if item.NotAnObject? then Abort
    else
      var tool := ToolOf(item);
      if !item.hasNews then Skip
      else
        var text := TextOf(item);
        var url := UrlOf(item);
        var name := FileName(tool, url, md5);
        if name in existing || |text| <= MinPostLength then Skip
        else
          var date := item.postDate.GetOr(DefaultDate);
          match analyze(text, tool)
          case Rejected => Skip
          case Analyzed(summary, why, score) =>
            Save(Saved(name, Record(category, tool, summary.GetOr(text), why.GetOr(DefaultWhy), score.GetOr(DefaultScore), date, url, stamp)))
          case _ =>
            Save(Saved(name, Record(category, tool, text, DefaultWhy, DefaultScore, date, url, stamp)))
  }

  /**
   * The loop over the list from entry `i` on, with `existing` the files in
   * the report directory; `clock(i)` is the time at which entry `i` is saved.
   */
  function Collect(category: string, items: seq<RawItem>, i: nat, existing: set<string>,
                   analyze: (string, string) -> Analysis, md5: string -> string, clock: nat -> string): seq<Saved>
    requires i <= |items|
    decreases |items| - i
  {
    if i == |items| then []
    else
      match ItemStep(category, items[i], existing, analyze, md5, clock(i))
      case Abort => []
      case Skip => Collect(category, items, i + 1, existing, analyze, md5, clock)
      case Save(saved) => [saved] + Collect(category, items, i + 1, existing + {saved.name}, analyze, md5, clock)
  }

  function NamesOf(written: seq<Saved>): set<string>
  {
    set k | 0 <= k < |written| :: written[k].name
  }

  /** The list a batch yields, if it yields one: any other result saves nothing. */
  function BatchItems(fetched: Fetched): Option<seq<RawItem>>
  {
    if fetched.Decoded? && fetched.value.JList? then Some(fetched.value.items) else None
  }

  /** None of the written files existed before. */
  predicate AllNew(written: seq<Saved>, existing: set<string>)
  {
    forall k :: 0 <= k < |written| ==> written[k].name !in existing
  }

  /** No file is written twice. */
  predicate NamesDistinct(written: seq<Saved>)
  {
    forall a, b :: 0 <= a < b < |written| ==> written[a].name != written[b].name
  }

  /**
   * Files are only ever created: every name written is new to the
   * directory, and no name is written twice.
   */
  lemma {:induction false} CollectWritesNewFiles(category: string, items: seq<RawItem>, i: nat, existing: set<string>,
                                                 analyze: (string, string) -> Analysis, md5: string -> string, clock: nat -> string)
    requires i <= |items|
    ensures AllNew(Collect(category, items, i, existing, analyze, md5, clock), existing)
    ensures NamesDistinct(Collect(category, items, i, existing, analyze, md5, clock))
    decreases |items| - i
  {
    if i < |items| {
      var step := ItemStep(category, items[i], existing, analyze, md5, clock(i));
      if step.Skip? {
        CollectWritesNewFiles(category, items, i + 1, existing, analyze, md5, clock);
      } else if step.Save? {
        var saved := step.saved;
        var rest := Collect(category, items, i + 1, existing + {saved.name}, analyze, md5, clock);
        CollectWritesNewFiles(category, items, i + 1, existing + {saved.name}, analyze, md5, clock);
        NewHeadTail(saved, rest, existing);
      }
    }
  }

  /** Prepending a new file to a run of new, distinct files. */
  lemma NewHeadTail(saved: Saved, rest: seq<Saved>, existing: set<string>)
    requires saved.name !in existing && AllNew(rest, existing + {saved.name}) && NamesDistinct(rest)
    ensures AllNew([saved] + rest, existing) && NamesDistinct([saved] + rest)
  {
    var w := [saved] + rest;
    forall a, b | 0 <= a < b < |w| ensures w[a].name != w[b].name {
      assert w[b] == rest[b - 1];
      if a > 0 {
        assert w[a] == rest[a - 1];
      }
    }
    forall k | 0 <= k < |w| ensures w[k].name !in existing {
      if k > 0 {
        assert w[k] == rest[k - 1];
      }
    }
  }

  /**
   * A second run over the same list, once the first run's files exist,
   * writes nothing: re-runs never rewrite a saved item.
   */
  lemma {:induction false} RerunWritesNothing(category: string, items: seq<RawItem>, i: nat, existing: set<string>, later: set<string>,
                                              analyze: (string, string) -> Analysis, md5: string -> string, clock: nat -> string,
                                              clock2: nat -> string)
    requires i <= |items|
    requires existing + NamesOf(Collect(category, items, i, existing, analyze, md5, clock)) <= later
    ensures Collect(category, items, i, later, analyze, md5, clock2) == []
    decreases |items| - i
  {
    if i < |items| {
      var w := Collect(category, items, i, existing, analyze, md5, clock);
      match ItemStep(category, items[i], existing, analyze, md5, clock(i))
      case Abort =>
      case Skip =>
        RerunWritesNothing(category, items, i + 1, existing, later, analyze, md5, clock, clock2);
      case Save(saved) =>
        var rest := Collect(category, items, i + 1, existing + {saved.name}, analyze, md5, clock);
        assert w == [saved] + rest;
        assert w[0].name == saved.name;
        forall n | n in NamesOf(rest) ensures n in later {
          var k :| 0 <= k < |rest| && rest[k].name == n;
          assert w[k + 1].name == n;
        }
        RerunWritesNothing(category, items, i + 1, existing + {saved.name}, later, analyze, md5, clock, clock2);
    }
  }

  /** One turn of the loop, as the next step of `Collect`, after the files `written` so far. */
  lemma CollectAdvance(category: string, items: seq<RawItem>, i: nat, dir: set<string>,
                       analyze: (string, string) -> Analysis, md5: string -> string, clock: nat -> string, written: seq<Saved>)
    requires i < |items|
    ensures var step := ItemStep(category, items[i], dir, analyze, md5, clock(i));
      var total := written + Collect(category, items, i, dir, analyze, md5, clock);
      (step.Abort? ==> written == total)
      && (step.Skip? ==> written + Collect(category, items, i + 1, dir, analyze, md5, clock) == total)
      && (step.Save? ==> (written + [step.saved]) + Collect(category, items, i + 1, dir + {step.saved.name}, analyze, md5, clock) == total)
  {
    var step := ItemStep(category, items[i], dir, analyze, md5, clock(i));
    if step.Abort? {
      assert written + [] == written;
    } else if step.Save? {
      AppendAssoc(written, [step.saved], Collect(category, items, i + 1, dir + {step.saved.name}, analyze, md5, clock));
    }
  }

  /** realtime_delivery's `x_item`: a copy of the record with "id" set to its URL. */
  datatype XItem = XItem(record: Record, id: string)

  function ForX(record: Record): (x: XItem)
    ensures x.id == record.url && x.record == record
  {
    XItem(record, record.url)
  }

  /**
   * The body of process_category's loop for one entry: what it decides
   * and, when it saves, the file name and the record it writes.
   */
  method HandleItem(category: string, item: RawItem, dir: set<string>, analyze: (string, string) -> Analysis,
                    md5: string -> string, stamp: string)
    returns (step: Step)
    ensures step == ItemStep(category, item, dir, analyze, md5, stamp)
  {
    if item.NotAnObject? {
      return Abort;
    }
    var tool := item.toolName.GetOr(DefaultTool);
    if !item.hasNews {
      return Skip;
    }
    var text := item.postText.GetOr("");
    var date := item.postDate.GetOr(DefaultDate);
    var url := item.postUrl.GetOr(DefaultUrl);
    var summary, why, score := text, DefaultWhy, DefaultScore;
    var name := FileName(tool, url, md5);
    if name in dir {
      return Skip;
    }
    if |text| > MinPostLength {
      var result := analyze(text, tool);
      if result.Rejected? {
        return Skip;
      }
      if result.AnalysisError? {
        summary := text;
      } else if result.Analyzed? {
        summary := result.summary.GetOr(text);
        why := result.why.GetOr(why);
        score := result.score.GetOr(DefaultScore);
      }
    } else {
      return Skip;
    }
    step := Save(Saved(name, Record(category, tool, summary, why, score, date, url, stamp)));
  }

  /**
   * process_category: a failed batch saves nothing; otherwise each entry is
   * handled in order, each saved record is written to its file (which did
   * not exist) and handed to real-time delivery right after.
   */
  method ProcessCategory(category: string, fetched: Fetched, existing: set<string>, analyze: (string, string) -> Analysis,
                         md5: string -> string, clock: nat -> string)
    returns (written: seq<Saved>, delivered: seq<XItem>)
    ensures written == match BatchItems(fetched)
                       case None => []
                       case Some(items) => Collect(category, items, 0, existing, analyze, md5, clock)
    ensures |delivered| == |written| && forall k :: 0 <= k < |written| ==> delivered[k] == ForX(written[k].record)
  {
    written, delivered := [], [];
    if fetched.Reported? && StartsWith(fetched.message, "Error") {
      return;
    }
    if !(fetched.Decoded? && fetched.value.JList?) {
      return;
    }
    var items := fetched.value.items;
    var dir := existing;
    var i := 0;
    while i < |items|
      invariant i <= |items|
      invariant written + Collect(category, items, i, dir, analyze, md5, clock) == Collect(category, items, 0, existing, analyze, md5, clock)
      invariant |delivered| == |written| && forall k :: 0 <= k < |written| ==> delivered[k] == ForX(written[k].record)
    {
      var step := HandleItem(category, items[i], dir, analyze, md5, clock(i));
      CollectAdvance(category, items, i, dir, analyze, md5, clock, written);
      if step.Abort? {
        return;
      }
      if step.Save? {
        var saved := step.saved;
        dir := dir + {saved.name};
        written := written + [saved];
        delivered := delivered + [ForX(saved.record)];
      }
      i := i + 1;
    }
    assert written + [] == written;
  }
}
