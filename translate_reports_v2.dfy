/**
 * translate_reports_v2.py: a line scanner that finds each "- Post:" block
 * of a report, joins its text, and, when the text looks English and the
 * translator answers, replaces the block by one translated "- Post:" line.
 * The translator (Gemini) is a function parameter; an empty answer counts
 * as no answer, as Python's truth test does.
 */
module TranslateReportsV2 {
  import opened Wrappers
  import opened Text

  // ---------------------------------------------------------------------
  // is_likely_english
  // ---------------------------------------------------------------------

  /** The 22 `\b...\b` word patterns, in the order they are listed. */
  function EnglishWords(): seq<string>
  {
    [
      "the", "is", "are", "with", "for", "now", "can", "you", "our", "we",
      "this", "that", "have", "has", "will", "just", "new", "get",
      "been", "were", "from", "more"]
  }

  const SummaryLabel := "**Summary**:"
  /** 集, the character the Japanese summary format is recognised by. */
  const MarkerKanji := '\U{96C6}'
  const JapaneseLimit := 10

  /** Hiragana, katakana and the CJK unified ideographs block. */
  predicate IsJapaneseChar(c: char)
  {
    ('\U{3040}' <= c <= '\U{309F}') || ('\U{30A0}' <= c <= '\U{30FF}') || ('\U{4E00}' <= c <= '\U{9FFF}')
  }

  /** `len(re.findall('[぀-ゟ゠-ヿ一-鿿]', s))` */
  function JapaneseCount(s: string): (n: nat)
    ensures n <= |s|
  {
    if s == [] then 0
    else if IsJapaneseChar(s[0]) then 1 + JapaneseCount(s[1..])
    else JapaneseCount(s[1..])
  }

  /**
   * Not English when the text already has the Japanese summary format;
   * otherwise English when at least two of the words occur and there are
   * fewer than ten Japanese characters.
   */
  predicate IsLikelyEnglish(text: string)
  {
    if Contains(text, SummaryLabel) && MarkerKanji in text then false
    else CountWords(Lower(text), EnglishWords()) >= 2 && JapaneseCount(text) < JapaneseLimit
  }

  /** The heuristic in terms of which words occur: two different ones must. */
  lemma IsLikelyEnglishIff(text: string)
    ensures IsLikelyEnglish(text) <==>
      !(Contains(text, SummaryLabel) && MarkerKanji in text)
      && (exists i, j :: 0 <= i < j < |EnglishWords()| && HasWord(Lower(text), EnglishWords()[i]) && HasWord(Lower(text), EnglishWords()[j]))
      && JapaneseCount(text) < JapaneseLimit
  {
    CountWordsAtLeastTwo(Lower(text), EnglishWords());
  }

  // ---------------------------------------------------------------------
  // Blocks
  // ---------------------------------------------------------------------

  const PostTag := "- Post:"

  predicate IsPostLine(line: string)
  {
    StartsWith(Strip(line), PostTag)
  }

  /** A stripped line that gives a post's time or URL. */
  predicate IsTimeOrUrl(t: string)
  {
    StartsWith(t, "- Time:") || StartsWith(t, "- URL:")
  }

  /** A stripped line that closes a post block: a Time, URL or the next Post line. */
  predicate Closes(t: string)
  {
    IsTimeOrUrl(t) || StartsWith(t, PostTag)
  }

  predicate EndsBlock(line: string)
  {
    Closes(Strip(line))
  }

  predicate IsTimeOrUrlLine(line: string)
  {
    IsTimeOrUrl(Strip(line))
  }

  /** The index of the first line at or after `j` that closes a block, or the end. */
  function BlockEnd(lines: seq<string>, j: nat): (e: nat)
    requires j <= |lines|
    ensures j <= e <= |lines| && (e < |lines| ==> EndsBlock(lines[e]))
    decreases |lines| - j
  {
    if j == |lines| || EndsBlock(lines[j]) then j else BlockEnd(lines, j + 1)
  }

  /** No line before the block end closes the block. */
  lemma {:induction false} BlockEndSkips(lines: seq<string>, j: nat)
    requires j <= |lines|
    ensures forall k :: j <= k < BlockEnd(lines, j) ==> !EndsBlock(lines[k])
    decreases |lines| - j
  {
    if j < |lines| && !EndsBlock(lines[j]) {
      BlockEndSkips(lines, j + 1);
    }
  }

  /** A stripped continuation line that adds to the post: neither blank nor a heading. */
  predicate Kept(t: string)
  {
    t != "" && !StartsWith(t, "#")
  }

  /**
   * The text that lines `a` up to (not including) `b` add to a post: " "
   * and the stripped line for each kept line, left to right.
   */
  function Gather(lines: seq<string>, a: nat, b: nat): string
    requires a <= b <= |lines|
    decreases b - a
  {
    if a == b then ""
    else if Kept(Strip(lines[b - 1])) then Gather(lines, a, b - 1) + (" " + Strip(lines[b - 1]))
    else Gather(lines, a, b - 1)
  }

  lemma PostLineHasTag(line: string)
    requires IsPostLine(line)
    ensures Contains(line, PostTag)
  {
    var t := Strip(line);
    var a := LeadSpace(line);
    StripChars(line);
    assert forall k :: 0 <= k < |PostTag| ==> PostTag[k] == t[..|PostTag|][k] == line[a + k];
    OccursAtByIndex(line, PostTag, a);
    ContainsIff(line, PostTag);
  }

  /** `line[line.find('- Post:') + 7:].strip()` */
  function PostHead(line: string): string
    requires IsPostLine(line)
  {
    PostLineHasTag(line);
    Strip(line[Find(line, PostTag) + |PostTag|..])
  }

  /** The joined text of the block that starts at `i` and ends before `e`, stripped. */
  function PostContent(lines: seq<string>, i: nat, e: nat): string
    requires i < e <= |lines| && IsPostLine(lines[i])
  {
    Strip(PostHead(lines[i]) + Gather(lines, i + 1, e))
  }

  /** A block's text is sent to the translator when it is non-empty and looks English. */
  predicate NeedsTranslation(content: string)
  {
    content != "" && IsLikelyEnglish(content)
  }

  /** Python's truth test on the translator's answer: neither None nor "". */
  predicate Answered(r: Option<string>)
  {
    r.Some? && r.value != ""
  }

  /** The translation that replaces a block, if any: English text and a non-empty answer. */
  function TranslationOf(content: string, tool: string, translate: (string, string) -> Option<string>): (r: Option<string>)
    ensures r.Some? ==> r.value != "" && content != "" && IsLikelyEnglish(content)
    ensures r.Some? <==> NeedsTranslation(content) && Answered(translate(content, tool))
    ensures r.Some? ==> r == translate(content, tool)
  {
    if NeedsTranslation(content) && Answered(translate(content, tool)) then translate(content, tool) else None
  }

  // ---------------------------------------------------------------------
  // The rewrite
  // ---------------------------------------------------------------------

  /** The replacement for a block of joined text `content` in the file of `tool`. */
  function Replacement(tool: string, translate: (string, string) -> Option<string>): string -> Option<string>
  {
    content => TranslationOf(content, tool, translate)
  }

  datatype Rewritten = Rewritten(lines: seq<string>, modified: bool)

  /**
   * The lines from index `i` on after the rewrite: a translated block
   * becomes one "- Post: ..." line and the line that closed it is read
   * next; any other line, including an untranslated block, is kept.
   * `replace` gives the replacement chosen for a block's joined text.
   */
  function RewriteFrom(lines: seq<string>, i: nat, replace: string -> Option<string>): Rewritten
    requires i <= |lines|
    decreases |lines| - i
  {
    if i == |lines| then Rewritten([], false)
    else if IsPostLine(lines[i]) then
      var e := BlockEnd(lines, i + 1);
      var rest := RewriteFrom(lines, e, replace);
      match replace(PostContent(lines, i, e))
      case Some(t) => Rewritten(["- Post: " + t] + rest.lines, true)
      case None => Rewritten(lines[i..e] + rest.lines, rest.modified)
    else
      var rest := RewriteFrom(lines, i + 1, replace);
      Rewritten([lines[i]] + rest.lines, rest.modified)
  }

  /** One more line of the block read: the block goes on and the line's piece is added. */
  lemma GatherStep(lines: seq<string>, a: nat, j: nat, head: string)
    requires a <= j < |lines| && !EndsBlock(lines[j])
    ensures BlockEnd(lines, j) == BlockEnd(lines, j + 1)
    ensures Kept(Strip(lines[j])) ==>
      (head + Gather(lines, a, j)) + (" " + Strip(lines[j])) == head + Gather(lines, a, j + 1)
    ensures !Kept(Strip(lines[j])) ==> head + Gather(lines, a, j) == head + Gather(lines, a, j + 1)
  {
    AppendAssoc(head, Gather(lines, a, j), " " + Strip(lines[j]));
  }

  /** Reading one block: its end and its joined text, as the inner loop builds them. */
  method ReadBlock(lines: seq<string>, i: nat) returns (j: nat, content: string)
    requires i < |lines| && IsPostLine(lines[i])
    ensures j == BlockEnd(lines, i + 1) && content == PostContent(lines, i, j)
  {
    var line := lines[i];
    content := PostHead(line);
    j := i + 1;
    while j < |lines|
      invariant i + 1 <= j <= |lines|
      invariant BlockEnd(lines, j) == BlockEnd(lines, i + 1)
      invariant content == PostHead(line) + Gather(lines, i + 1, j)
      decreases |lines| - j
    {
      var next := Strip(lines[j]);
      if Closes(next) {
        break;
      }
      GatherStep(lines, i + 1, j, PostHead(line));
      if Kept(next) {
        content := content + (" " + next);
      }
      j := j + 1;
    }
    content := Strip(content);
  }

  /** The inner loop that keeps an untranslated block's lines as they were. */
  method KeepLines(acc: seq<string>, lines: seq<string>, i: nat, j: nat) returns (r: seq<string>)
    requires i <= j <= |lines|
    ensures r == acc + lines[i..j]
  {
    r := acc;
    var k := i;
    while k < j
      invariant i <= k <= j
      invariant r == acc + lines[i..k]
      decreases j - k
    {
      assert lines[i..k + 1] == lines[i..k] + [lines[k]];
      AppendAssoc(acc, lines[i..k], [lines[k]]);
      r := r + [lines[k]];
      k := k + 1;
    }
  }

  /** process_report_file's loop: the new lines and whether any block was replaced. */
  method ProcessReportLines(lines: seq<string>, tool: string, translate: (string, string) -> Option<string>)
    returns (newLines: seq<string>, modified: bool)
    ensures Rewritten(newLines, modified) == RewriteFrom(lines, 0, Replacement(tool, translate))
  {
    ghost var replace := Replacement(tool, translate);
    newLines := [];
    modified := false;
    var i := 0;
    while i < |lines|
      invariant 0 <= i <= |lines|
      invariant RewriteFrom(lines, 0, replace) ==
        Rewritten(newLines + RewriteFrom(lines, i, replace).lines,
                  modified || RewriteFrom(lines, i, replace).modified)
      decreases |lines| - i
    {
      var line := lines[i];
      if IsPostLine(line) {
        var j, content := ReadBlock(lines, i);
        ghost var rest := RewriteFrom(lines, j, replace);
        if NeedsTranslation(content) {
          var translated := translate(content, tool);
          if Answered(translated) {
            AppendAssoc(newLines, ["- Post: " + translated.value], rest.lines);
            newLines := newLines + ["- Post: " + translated.value];
            modified := true;
            i := j;
            continue;
          }
        }
        ghost var before := newLines;
        newLines := KeepLines(newLines, lines, i, j);
        AppendAssoc(before, lines[i..j], rest.lines);
        i := j;
        continue;
      }
      AppendAssoc(newLines, [line], RewriteFrom(lines, i + 1, replace).lines);
      newLines := newLines + [line];
      i := i + 1;
    }
  }

  /** The tool name handed to the translator: the file's stem with '_' read as ' '. */
  function ToolName(stem: string): (tool: string)
    ensures |tool| == |stem|
    ensures forall i :: 0 <= i < |stem| ==> tool[i] == (if stem[i] == '_' then ' ' else stem[i])
    ensures '_' !in tool
  {
    ReplaceCharByChar(stem, "_", " ");
    ReplaceAll(stem, "_", " ")
  }

  /**
   * process_report_file(): the new file content when some block was
   * replaced (the file is then written and True returned), else nothing.
   */
  method ProcessReportFile(content: string, stem: string, translate: (string, string) -> Option<string>)
    returns (written: Option<string>)
    ensures var r := RewriteFrom(Split(content, '\n'), 0, Replacement(ToolName(stem), translate));
      written == if r.modified then Some(Join("\n", r.lines)) else None
  {
    var lines := Split(content, '\n');
    var newLines, modified := ProcessReportLines(lines, ToolName(stem), translate);
    if modified {
      return Some(Join("\n", newLines));
    }
    return None;
  }

  // ---------------------------------------------------------------------
  // What the rewrite keeps
  // ---------------------------------------------------------------------

  /** Without a replacement the lines come out exactly as they went in. */
  lemma {:induction false} UnmodifiedIsIdentity(lines: seq<string>, i: nat, replace: string -> Option<string>)
    requires i <= |lines|
    requires !RewriteFrom(lines, i, replace).modified
    ensures RewriteFrom(lines, i, replace).lines == lines[i..]
    decreases |lines| - i
  {
    if i < |lines| {
      if IsPostLine(lines[i]) {
        var e := BlockEnd(lines, i + 1);
        UnmodifiedIsIdentity(lines, e, replace);
        assert lines[i..] == lines[i..e] + lines[e..];
      } else {
        UnmodifiedIsIdentity(lines, i + 1, replace);
        assert lines[i..] == [lines[i]] + lines[i + 1..];
      }
    }
  }

  /** An unmodified file is left as it was: nothing is written. */
  lemma UnmodifiedFileUnchanged(content: string, stem: string, translate: (string, string) -> Option<string>)
    requires !RewriteFrom(Split(content, '\n'), 0, Replacement(ToolName(stem), translate)).modified
    ensures Join("\n", RewriteFrom(Split(content, '\n'), 0, Replacement(ToolName(stem), translate)).lines) == content
  {
    UnmodifiedIsIdentity(Split(content, '\n'), 0, Replacement(ToolName(stem), translate));
    assert Split(content, '\n')[0..] == Split(content, '\n');
  }

  /** Blocks only shrink: the rewrite never adds lines. */
  lemma {:induction false} RewriteNoLonger(lines: seq<string>, i: nat, replace: string -> Option<string>)
    requires i <= |lines|
    ensures |RewriteFrom(lines, i, replace).lines| <= |lines| - i
    decreases |lines| - i
  {
    if i < |lines| {
      if IsPostLine(lines[i]) {
        RewriteNoLonger(lines, BlockEnd(lines, i + 1), replace);
      } else {
        RewriteNoLonger(lines, i + 1, replace);
      }
    }
  }

  /** The Time and URL lines, in order. */
  function TimeUrlLines(ls: seq<string>): seq<string>
  {
    if ls == [] then []
    else if IsTimeOrUrlLine(ls[0]) then [ls[0]] + TimeUrlLines(ls[1..])
    else TimeUrlLines(ls[1..])
  }

  lemma {:induction false} TimeUrlLinesAppend(a: seq<string>, b: seq<string>)
    ensures TimeUrlLines(a + b) == TimeUrlLines(a) + TimeUrlLines(b)
    decreases |a|
  {
    if a != [] {
      assert (a + b)[1..] == a[1..] + b;
      TimeUrlLinesAppend(a[1..], b);
    } else {
      assert a + b == b;
    }
  }

  /** A block holds no Time or URL line: its head is a Post line and the rest close nothing. */
  lemma {:induction false} BlockHasNoTimeUrl(lines: seq<string>, i: nat, e: nat)
    requires i < e <= |lines| && IsPostLine(lines[i])
    requires forall k :: i + 1 <= k < e ==> !EndsBlock(lines[k])
    ensures TimeUrlLines(lines[i..e]) == []
    decreases e - i
  {
    assert lines[i..e][0] == lines[i];
    assert !IsTimeOrUrlLine(lines[i]) by {
      PostTagExcludesTimeUrl(Strip(lines[i]));
    }
    if i + 1 < e {
      assert !IsPostLine(lines[i + 1]);
      NonClosingLinesNoTimeUrl(lines, i + 1, e);
      assert lines[i..e][1..] == lines[i + 1..e];
    } else {
      assert lines[i..e][1..] == [];
    }
  }

  lemma {:induction false} NonClosingLinesNoTimeUrl(lines: seq<string>, j: nat, e: nat)
    requires j <= e <= |lines|
    requires forall k :: j <= k < e ==> !EndsBlock(lines[k])
    ensures TimeUrlLines(lines[j..e]) == []
    decreases e - j
  {
    if j < e {
      NonClosingLinesNoTimeUrl(lines, j + 1, e);
      assert lines[j..e][1..] == lines[j + 1..e];
    }
  }

  lemma PostTagExcludesTimeUrl(t: string)
    requires StartsWith(t, PostTag)
    ensures !StartsWith(t, "- Time:") && !StartsWith(t, "- URL:")
  {
    assert t[2] == 'P';
  }

  /** The replacement line is a Post line, so it is neither a Time nor a URL line. */
  lemma TranslatedLineNotTimeUrl(t: string)
    ensures !IsTimeOrUrlLine("- Post: " + t)
  {
    var line := "- Post: " + t;
    assert StartsWith(line, PostTag) by {
      assert line[..|PostTag|] == PostTag;
    }
    StripKeepsPrefix(line, PostTag);
    PostTagExcludesTimeUrl(Strip(line));
  }

  /**
   * Every Time and URL line is kept, in order, and no new one appears, in
   * the list of rewritten lines. This is a statement about that list: once
   * it is joined with "\n" and the file is read back, a translation that
   * itself contains a line break splits into several lines, and the later
   * ones are not covered here.
   */
  lemma {:induction false} RewriteKeepsTimeUrlLines(lines: seq<string>, i: nat, replace: string -> Option<string>)
    requires i <= |lines|
    ensures TimeUrlLines(RewriteFrom(lines, i, replace).lines) == TimeUrlLines(lines[i..])
    decreases |lines| - i
  {
    if i < |lines| {
      if IsPostLine(lines[i]) {
        var e := BlockEnd(lines, i + 1);
        var rest := RewriteFrom(lines, e, replace);
        RewriteKeepsTimeUrlLines(lines, e, replace);
        assert lines[i..] == lines[i..e] + lines[e..];
        TimeUrlLinesAppend(lines[i..e], lines[e..]);
        BlockEndSkips(lines, i + 1);
        BlockHasNoTimeUrl(lines, i, e);
        match replace(PostContent(lines, i, e))
        case Some(t) =>
          TimeUrlLinesAppend(["- Post: " + t], rest.lines);
          TranslatedLineNotTimeUrl(t);
          assert TimeUrlLines(["- Post: " + t]) == [];
        case None =>
          TimeUrlLinesAppend(lines[i..e], rest.lines);
      } else {
        RewriteKeepsTimeUrlLines(lines, i + 1, replace);
        assert lines[i..] == [lines[i]] + lines[i + 1..];
        TimeUrlLinesAppend([lines[i]], lines[i + 1..]);
        TimeUrlLinesAppend([lines[i]], RewriteFrom(lines, i + 1, replace).lines);
      }
    }
  }
}
