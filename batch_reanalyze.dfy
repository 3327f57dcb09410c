/**
 * batch_reanalyze.py: every saved JSON report that has no score, or still
 * carries a placeholder explanation, is sent to the analyzer again; a
 * successful answer overwrites the report's summary, why and score in
 * place and the file is written back. The report files are an array in
 * the order the directory listing gives them; the analyzer is a parameter.
 */
module BatchReanalyze {
  import opened Wrappers
  import opened Text
  import CollectAiNews

  /** The JSON values the model distinguishes in a report's fields. */
  datatype Value = Str(s: string) | Num(n: int) | Null

  /** A report: a JSON object. */
  type Report = map<string, Value>

  /** A report file as `json.load` reads it. */
  datatype File = Unreadable | Parsed(data: Report)

  /** The placeholder explanations that mark a report for re-analysis. */
  const PlaceholderJa := "詳細をご確認ください"
  const PlaceholderEn := "Check details"

  /**
   * is_legacy: true when the score is missing (the explanation is then not
   * looked at), otherwise whether `data.get("why", "")` contains a
   * placeholder; None when that explanation is not a string, where the
   * `in` test raises and ends the run.
   */
  function Legacy(data: Report): Option<bool>
  {
    if "score" !in data then Some(true)
    else
      var why := if "why" in data then data["why"] else Str("");
      if why.Str? then Some(Contains(why.s, PlaceholderJa) || Contains(why.s, PlaceholderEn)) else None
  }

  /**
   * The analyzer's answer: no news (None), a result holding "error", a
   * result with summary, why and score, or an exception (a result lacking
   * one of the three keys raises when it is read).
   */
  datatype Outcome = NoNews | Failed | Result(summary: Value, why: Value, score: Value) | Raised

  const Refreshed := {"summary", "why", "score"}

  /** The three assignments of a successful re-analysis. */
  function Update(data: Report, summary: Value, why: Value, score: Value): (r: Report)
    ensures r.Keys == data.Keys + Refreshed
    ensures r["summary"] == summary && r["why"] == why && r["score"] == score
    ensures forall k :: k in data && k != "summary" && k != "why" && k != "score" ==> r[k] == data[k]
  {
    data["summary" := summary]["why" := why]["score" := score]
  }

  /** What the run does with one file. */
  datatype Step = Unchanged | Rewrite(data: Report) | Crash

  /** The analyzer's input: the old summary and the tool name, with their defaults. */
  function SourceText(data: Report): Value
  {
    if "summary" in data then data["summary"] else Str("")
  }

  function ToolName(data: Report): Value
  {
    if "tool" in data then data["tool"] else Str("Unknown")
  }

  /**
   * One file: unreadable and up-to-date reports are left alone, a legacy
   * report is rewritten exactly when the analyzer gives a result, and a
   * non-string explanation on a scored report ends the run.
   */
  function Reanalyzed(f: File, analyze: (Value, Value) -> Outcome): (r: Step)
    ensures r.Crash? <==> f.Parsed? && Legacy(f.data).None?
    ensures r.Rewrite? <==> f.Parsed? && Legacy(f.data) == Some(true) && analyze(SourceText(f.data), ToolName(f.data)).Result?
    ensures r.Rewrite? ==> var a := analyze(SourceText(f.data), ToolName(f.data));
      r.data == Update(f.data, a.summary, a.why, a.score)
  {
    match f
    case Unreadable => Unchanged
    case Parsed(data) =>
      match Legacy(data)
      case None => Crash
      case Some(legacy) =>
        if !legacy then Unchanged
        else
          match analyze(SourceText(data), ToolName(data))
          case Result(summary, why, score) => Rewrite(Update(data, summary, why, score))
          case _ => Unchanged
  }

  /** The file after its step (a crash happens before anything is written). */
  function After(f: File, analyze: (Value, Value) -> Outcome): File
  {
    match Reanalyzed(f, analyze)
    case Rewrite(data) => Parsed(data)
    case _ => f
  }

  lemma AfterStep(f: File, step: Step, analyze: (Value, Value) -> Outcome)
    requires step == Reanalyzed(f, analyze)
    ensures After(f, analyze) == if step.Rewrite? then Parsed(step.data) else f
  {
  }

  /** How many of the files `fs` are rewritten. */
  function Rewrites(fs: seq<File>, analyze: (Value, Value) -> Outcome): (n: nat)
  {
    if fs == [] then 0
    else Rewrites(fs[..|fs| - 1], analyze) + (if Reanalyzed(fs[|fs| - 1], analyze).Rewrite? then 1 else 0)
  }

  lemma {:induction false} RewritesAtMost(fs: seq<File>, analyze: (Value, Value) -> Outcome)
    ensures Rewrites(fs, analyze) <= |fs|
    ensures Rewrites(fs, analyze) == 0 <==> forall k :: 0 <= k < |fs| ==> !Reanalyzed(fs[k], analyze).Rewrite?
  {
    if fs != [] {
      var n := |fs| - 1;
      RewritesAtMost(fs[..n], analyze);
      assert forall k :: 0 <= k < n ==> fs[..n][k] == fs[k];
    }
  }

  /** How many files the run gets through before one ends it (all of them when none does). */
  function Reached(fs: seq<File>, analyze: (Value, Value) -> Outcome): (n: nat)
    ensures n <= |fs|
    ensures forall k :: 0 <= k < n ==> !Reanalyzed(fs[k], analyze).Crash?
    ensures n < |fs| ==> Reanalyzed(fs[n], analyze).Crash?
  {
    if fs == [] then 0
    else if Reanalyzed(fs[0], analyze).Crash? then 0
    else
      var rest := Reached(fs[1..], analyze);
      assert forall k :: 1 <= k < |fs| ==> fs[k] == fs[1..][k - 1];
      1 + rest
  }

  /** The body of batch_reanalyze's loop for one file, up to writing it back. */
  method ReanalyzeFile(file: File, analyze: (Value, Value) -> Outcome) returns (step: Step)
    ensures step == Reanalyzed(file, analyze)
  {
    if file.Unreadable? {
      return Unchanged;
    }
    var data := file.data;
    var legacy: bool;
    if "score" !in data {
      legacy := true;
    } else {
      var why := if "why" in data then data["why"] else Str("");
      if !why.Str? {
        return Crash;
      }
      legacy := Contains(why.s, PlaceholderJa) || Contains(why.s, PlaceholderEn);
    }
    if !legacy {
      return Unchanged;
    }
    var source := if "summary" in data then data["summary"] else Str("");
    var tool := if "tool" in data then data["tool"] else Str("Unknown");
    var result := analyze(source, tool);
    if result.Result? {
      data := data["summary" := result.summary];
      data := data["why" := result.why];
      data := data["score" := result.score];
      return Rewrite(data);
    }
    return Unchanged;
  }

  /** The files once the first `i` have had their step. */
  function Processed(fs: seq<File>, i: nat, analyze: (Value, Value) -> Outcome): (r: seq<File>)
    requires i <= |fs|
    ensures |r| == |fs|
  {
    seq(|fs|, k requires 0 <= k < |fs| => if k < i then After(fs[k], analyze) else fs[k])
  }

  lemma ProcessedStep(fs: seq<File>, i: nat, analyze: (Value, Value) -> Outcome)
    requires i < |fs|
    ensures Processed(fs, i + 1, analyze) == Processed(fs, i, analyze)[i := After(fs[i], analyze)]
  {
  }

  /**
   * batch_reanalyze's loop: `count` counts the files looked at, `updated`
   * the files rewritten; on a crash the file that raised is counted, no
   * later file is touched, and the counters are never printed.
   */
  method Run(files: array<File>, analyze: (Value, Value) -> Outcome) returns (count: nat, updated: nat, crashed: bool)
    modifies files
    ensures var done := Reached(old(files[..]), analyze);
      (crashed <==> done < files.Length)
      && count == (if crashed then done + 1 else done)
      && updated == Rewrites(old(files[..])[..done], analyze)
      && files[..] == Processed(old(files[..]), done, analyze)
    ensures updated <= count <= files.Length
  {
    ghost var start := files[..];
    count, updated, crashed := 0, 0, false;
    var i := 0;
    while i < files.Length
      invariant 0 <= i <= files.Length && count == i
      invariant forall k :: 0 <= k < i ==> !Reanalyzed(start[k], analyze).Crash?
      invariant updated == Rewrites(start[..i], analyze)
      invariant files[..] == Processed(start, i, analyze)
    {
      count := count + 1;
      assert start[..i + 1][..i] == start[..i];
      ProcessedStep(start, i, analyze);
      var step := ReanalyzeFile(files[i], analyze);
      AfterStep(start[i], step, analyze);
      if step.Crash? {
        crashed := true;
        ReachedStops(start, i, analyze);
        RewritesAtMost(start[..i], analyze);
        return;
      }
      if step.Rewrite? {
        files[i] := Parsed(step.data);
        updated := updated + 1;
      }
      i := i + 1;
    }
    ReachedAll(start, analyze);
    assert start[..i] == start;
    RewritesAtMost(start, analyze);
  }

  /** The run reaches file `i` and stops there when it is the first to raise. */
  lemma {:induction false} ReachedStops(fs: seq<File>, i: nat, analyze: (Value, Value) -> Outcome)
    requires i < |fs| && Reanalyzed(fs[i], analyze).Crash?
    requires forall k :: 0 <= k < i ==> !Reanalyzed(fs[k], analyze).Crash?
    ensures Reached(fs, analyze) == i
  {
    if i > 0 {
      ReachedStops(fs[1..], i - 1, analyze);
    }
  }

  lemma ReachedAll(fs: seq<File>, analyze: (Value, Value) -> Outcome)
    requires forall k :: 0 <= k < |fs| ==> !Reanalyzed(fs[k], analyze).Crash?
    ensures Reached(fs, analyze) == |fs|
  {
  }

  /** A report without a placeholder and with a score is never rewritten. */
  /**
   * The refresh raises exactly for a record that has a score and a
   * non-string explanation: without a score the `or` stops first.
   */
  lemma CrashIff(data: Report, analyze: (Value, Value) -> Outcome)
    ensures Reanalyzed(Parsed(data), analyze).Crash? <==> "score" in data && "why" in data && !data["why"].Str?
  {
  }

  lemma CurrentReportKept(data: Report, analyze: (Value, Value) -> Outcome)
    requires "score" in data && "why" in data && data["why"].Str?
    requires !Contains(data["why"].s, PlaceholderJa) && !Contains(data["why"].s, PlaceholderEn)
    ensures After(Parsed(data), analyze) == Parsed(data)
  {
  }

  /**
   * A report rewritten with an explanation free of placeholders is not
   * legacy any more: a second run leaves it alone.
   */
  lemma RewriteIsFinal(data: Report, analyze: (Value, Value) -> Outcome, analyze2: (Value, Value) -> Outcome)
    requires Reanalyzed(Parsed(data), analyze).Rewrite?
    requires var a := analyze(SourceText(data), ToolName(data));
      a.why.Str? && !Contains(a.why.s, PlaceholderJa) && !Contains(a.why.s, PlaceholderEn)
    ensures After(After(Parsed(data), analyze), analyze2) == After(Parsed(data), analyze)
  {
    var a := analyze(SourceText(data), ToolName(data));
    var updated := Update(data, a.summary, a.why, a.score);
    assert After(Parsed(data), analyze) == Parsed(updated);
    CurrentReportKept(updated, analyze2);
  }

  // ---------------------------------------------------------------------
  // The collector's records
  // ---------------------------------------------------------------------

  /** The JSON object collect_ai_news writes for a record. */
  function RecordJson(r: CollectAiNews.Record): Report
  {
    map["category" := Str(r.category), "tool" := Str(r.tool), "summary" := Str(r.summary), "why" := Str(r.why),
        "score" := Num(r.score), "post_date" := Str(r.postDate), "url" := Str(r.url), "collected_at" := Str(r.collectedAt)]
  }

  /** The collector's default explanation contains the Japanese placeholder. */
  lemma DefaultWhyHasPlaceholder()
    ensures Contains(CollectAiNews.DefaultWhy, PlaceholderJa)
  {
    assert CollectAiNews.DefaultWhy[..|PlaceholderJa|] == PlaceholderJa;
  }

  /** A record saved with the collector's default explanation is always selected again. */
  lemma DefaultRecordIsLegacy(r: CollectAiNews.Record)
    requires r.why == CollectAiNews.DefaultWhy
    ensures Legacy(RecordJson(r)) == Some(true)
  {
    DefaultWhyHasPlaceholder();
    assert RecordJson(r)["why"] == Str(r.why);
  }

  /**
   * Every item the collector saves without an analysis (the analyzer
   * reported an error or could not be loaded) is a legacy report.
   */
  lemma UnanalyzedItemIsLegacy(category: string, item: CollectAiNews.RawItem, existing: set<string>,
                               analyze: (string, string) -> CollectAiNews.Analysis, md5: string -> string, stamp: string)
    requires CollectAiNews.ItemStep(category, item, existing, analyze, md5, stamp).Save?
    requires !analyze(CollectAiNews.TextOf(item), CollectAiNews.ToolOf(item)).Analyzed?
    ensures Legacy(RecordJson(CollectAiNews.ItemStep(category, item, existing, analyze, md5, stamp).saved.record)) == Some(true)
  {
    DefaultRecordIsLegacy(CollectAiNews.ItemStep(category, item, existing, analyze, md5, stamp).saved.record);
  }
}
