/**
 * translate_reports.py: one regex substitution over the report text. Each
 * "- Post: " unit (post text, then a "- Time: " line and a "- URL: " line)
 * whose post looks English is replaced by the translator's answer followed
 * by the unit's own Time and URL lines; everything else is copied. The
 * translator (Gemini) is a function parameter.
 */
module TranslateReports {
  import opened Wrappers
  import opened Text
  import TranslateReportsV2

  // ---------------------------------------------------------------------
  // is_english_post
  // ---------------------------------------------------------------------

  /** The ten `\b...\b` word patterns, in the order they are listed. */
  function PostWords(): seq<string>
  {
    ["the", "is", "are", "with", "for", "now", "can", "you", "our", "we"]
  }

  const WhyLabel := "**Why**:"

  /**
   * Not English when the text already carries a "**Summary**:" or
   * "**Why**:" label; otherwise English when two of the words occur.
   */
  predicate IsEnglishPost(text: string)
  {
    if Contains(text, TranslateReportsV2.SummaryLabel) || Contains(text, WhyLabel) then false
    else CountWords(Lower(text), PostWords()) >= 2
  }

  /** The heuristic in terms of which words occur: two different ones must. */
  lemma IsEnglishPostIff(text: string)
    ensures IsEnglishPost(text) <==>
      !Contains(text, TranslateReportsV2.SummaryLabel) && !Contains(text, WhyLabel)
      && exists i, j :: 0 <= i < j < |PostWords()| && HasWord(Lower(text), PostWords()[i]) && HasWord(Lower(text), PostWords()[j])
  {
    CountWordsAtLeastTwo(Lower(text), PostWords());
  }

  /**
   * The ten words are the first ten of the newer scanner's list, so a post
   * this heuristic calls English, and that has fewer than ten Japanese
   * characters, is English for the newer heuristic too.
   */
  lemma EnglishPostIsLikelyEnglish(text: string)
    requires IsEnglishPost(text) && TranslateReportsV2.JapaneseCount(text) < TranslateReportsV2.JapaneseLimit
    ensures TranslateReportsV2.IsLikelyEnglish(text)
  {
    var all := TranslateReportsV2.EnglishWords();
    assert all == PostWords() + all[10..];
    CountWordsAppend(Lower(text), PostWords(), all[10..]);
  }

  // ---------------------------------------------------------------------
  // The unit pattern:
  //   (- Post: )([^\n]+(?:\n(?!- Time:|- URL:)[^\n]+)*)\n(- Time: [^\n]+)\n(- URL: [^\n]+)
  // ---------------------------------------------------------------------

  const PostPrefix := "- Post: "
  const TimePrefix := "- Time: "
  const UrlPrefix := "- URL: "

  /**
   * The line starting at `k` can continue a post: the lookahead
   * `(?!- Time:|- URL:)` passes and `[^\n]+` takes at least one character.
   */
  predicate ContinuesPost(s: string, k: nat)
    requires k <= |s|
  {
    k < |s| && s[k] != '\n' && !StartsWith(s[k..], "- Time:") && !StartsWith(s[k..], "- URL:")
  }

  /** Group 2: non-empty lines, each one after the first able to continue a post. */
  predicate PostText(t: string)
  {
    t != [] && t[0] != '\n' && t[|t| - 1] != '\n'
    && forall k :: 0 <= k < |t| ==> BreakContinues(t, k)
  }

  /** A break at `k` is followed by a line that can continue a post. */
  predicate BreakContinues(s: string, k: nat)
    requires k < |s|
  {
    s[k] == '\n' ==> ContinuesPost(s, k + 1)
  }

  /** Group 3 (and, with the URL prefix, group 4): the prefix and at least one more character of one line. */
  predicate TaggedLine(t: string, prefix: string)
  {
    StartsWith(t, prefix) && |t| > |prefix| && '\n' !in t
  }

  /** The groups 2, 3 and 4 of a match: the post text, the Time line and the URL line. */
  datatype Groups = Groups(post: string, time: string, url: string)

  /**
   * The pattern tried at one position: no match, or where the match lies
   * (the break after the post, the break after the Time line, and the end
   * of the URL line, where the match stops).
   */
  datatype Match = NoMatch | Found(postEnd: nat, timeEnd: nat, stop: nat)

  /** The whole match, `match.group(0)`, from its groups. */
  function UnitText(g: Groups): string
  {
    PostPrefix + g.post + "\n" + g.time + "\n" + g.url
  }

  /**
   * The pattern matches `s` at `p` with the post ending at the break `e`,
   * the Time line ending at the break `t` and the URL line ending at
   * `stop`: each piece has its group's shape, and the URL line runs to the
   * end of its line, as the greedy `[^\n]+` makes it.
   */
  predicate Shape(s: string, p: nat, e: nat, t: nat, stop: nat)
  {
    p + |PostPrefix| < e < t < stop <= |s|
    && s[p..p + |PostPrefix|] == PostPrefix && PostText(s[p + |PostPrefix|..e])
    && s[e] == '\n' && TaggedLine(s[e + 1..t], TimePrefix)
    && s[t] == '\n' && TaggedLine(s[t + 1..stop], UrlPrefix)
    && (stop == |s| || s[stop] == '\n')
  }

  /** The groups of the match at `p` that lies at `m`. */
  function GroupsOf(s: string, p: nat, m: Match): Groups
    requires m.Found? && p + |PostPrefix| <= m.postEnd < m.timeEnd < m.stop <= |s|
  {
    Groups(s[p + |PostPrefix|..m.postEnd], s[m.postEnd + 1..m.timeEnd], s[m.timeEnd + 1..m.stop])
  }

  /** A match is the text its groups spell out. */
  lemma MatchText(s: string, p: nat, e: nat, t: nat, stop: nat)
    requires Shape(s, p, e, t, stop)
    ensures s[p..stop] == UnitText(GroupsOf(s, p, Found(e, t, stop)))
  {
    var b := p + |PostPrefix|;
    assert s[p..stop] == s[p..b] + s[b..e] + s[e..e + 1] + s[e + 1..t] + s[t..t + 1] + s[t + 1..stop];
  }

  /**
   * The end of the post's lines, starting from the end `e` of a line of
   * it: the repetition `(?:\n(?!- Time:|- URL:)[^\n]+)*` taken greedily.
   */
  function PostLinesEnd(s: string, e: nat): (r: nat)
    requires 0 < e <= |s| && s[e - 1] != '\n' && (e < |s| ==> s[e] == '\n')
    ensures e <= r <= |s| && s[r - 1] != '\n' && (r < |s| ==> s[r] == '\n')
    ensures r == |s| || !ContinuesPost(s, r + 1)
    ensures forall k :: e <= k < r ==> BreakContinues(s, k)
    decreases |s| - e
  {
    if e < |s| && ContinuesPost(s, e + 1) then
      var next := LineEnd(s, e + 1);
      NextPostLine(s, e, next);
      PostLinesEnd(s, next)
    else e
  }

  /** The break at `e` continues the post, and the line after it holds no break. */
  lemma NextPostLine(s: string, e: nat, next: nat)
    requires e < |s| && s[e] == '\n' && ContinuesPost(s, e + 1) && next == LineEnd(s, e + 1)
    ensures e + 1 < next && s[next - 1] != '\n'
    ensures forall k :: e <= k < next ==> BreakContinues(s, k)
  {
    forall k | e <= k < next ensures BreakContinues(s, k) {
      if k > e {
        assert s[k] != '\n';
      }
    }
  }

  /**
   * "- Post: " at `p`, a non-empty first line, and the post's further
   * lines followed by a break.
   */
  predicate PostStarts(s: string, p: nat)
    requires p <= |s|
  {
    var b := p + |PostPrefix|;
    StartsWith(s[p..], PostPrefix) && LineEnd(s, b) > b && PostLinesEnd(s, LineEnd(s, b)) < |s|
  }

  /** The index of the break after the post that starts at `p`. */
  function PostEnd(s: string, p: nat): (e: nat)
    requires p <= |s| && PostStarts(s, p)
    ensures p + |PostPrefix| < e < |s|
  {
    PostLinesEnd(s, LineEnd(s, p + |PostPrefix|))
  }

  /** What PostEnd reads is "- Post: " and a valid group 2, up to a break. */
  lemma PostEndSound(s: string, p: nat)
    requires p <= |s| && PostStarts(s, p)
    ensures var e := PostEnd(s, p);
      s[e] == '\n' && s[p..p + |PostPrefix|] == PostPrefix && PostText(s[p + |PostPrefix|..e])
  {
    var b := p + |PostPrefix|;
    var e := PostLinesEnd(s, LineEnd(s, b));
    assert s[p..b] == s[p..][..|PostPrefix|];
    PostLinesArePostText(s, b, LineEnd(s, b), e);
  }

  /** The line starting at `k` is `prefix` and at least one more character. */
  predicate TaggedLineAt(s: string, k: nat, prefix: string)
    requires k <= |s|
  {
    LineEnd(s, k) > k + |prefix| && StartsWith(s[k..LineEnd(s, k)], prefix)
  }

  /**
   * `post_pattern.match(s, p)`. Backtracking never helps: a shorter
   * `[^\n]+` leaves a character that is not the '\n' the pattern needs
   * next, and fewer post lines leave a line that does not start with
   * "- Time:" where "- Time: " is needed. So the greedy reading is the
   * only one that can succeed.
   */
  function MatchAt(s: string, p: nat): (r: Match)
    requires p <= |s|
    ensures r.Found? ==> p + |PostPrefix| < r.postEnd < r.timeEnd < r.stop <= |s|
  {
    if PostStarts(s, p) then MatchAfterPost(s, PostEnd(s, p)) else NoMatch
  }

  /** The rest of the match once the post has been read up to the break `e`. */
  function MatchAfterPost(s: string, e: nat): (r: Match)
    requires e < |s|
    ensures r.Found? ==> r.postEnd == e < r.timeEnd < r.stop <= |s|
  {
    if TaggedLineAt(s, e + 1, TimePrefix) && LineEnd(s, e + 1) < |s|
    then MatchAfterTime(s, e, LineEnd(s, e + 1))
    else NoMatch
  }

  /** The URL line of the match, once the Time line has been read up to the break `t`. */
  function MatchAfterTime(s: string, e: nat, t: nat): (r: Match)
    requires e < t < |s|
    ensures r.Found? ==> r.postEnd == e && r.timeEnd == t < r.stop <= |s|
  {
    if TaggedLineAt(s, t + 1, UrlPrefix) then Found(e, t, LineEnd(s, t + 1)) else NoMatch
  }

  /** What the matcher finds is a match of the pattern. */
  lemma MatchAtSound(s: string, p: nat)
    requires p <= |s| && MatchAt(s, p).Found?
    ensures var m := MatchAt(s, p); Shape(s, p, m.postEnd, m.timeEnd, m.stop)
  {
    var e := PostEnd(s, p);
    var t := LineEnd(s, e + 1);
    assert MatchAt(s, p) == MatchAfterPost(s, e);
    MatchAfterPostFound(s, e);
    MatchAfterTimeFound(s, e, t);
    PostEndSound(s, p);
    ShapeOfPieces(s, p, e, t, LineEnd(s, t + 1));
  }

  /** The pieces of a match, each read separately, form a match. */
  lemma ShapeOfPieces(s: string, p: nat, e: nat, t: nat, stop: nat)
    requires p + |PostPrefix| < e < t < stop <= |s|
    requires s[p..p + |PostPrefix|] == PostPrefix && PostText(s[p + |PostPrefix|..e])
    requires s[e] == '\n' && TaggedLine(s[e + 1..t], TimePrefix)
    requires s[t] == '\n' && TaggedLine(s[t + 1..stop], UrlPrefix)
    requires stop == |s| || s[stop] == '\n'
    ensures Shape(s, p, e, t, stop)
  {
  }

  /** A match found after the post has a Time line that ends before the text does. */
  lemma MatchAfterPostFound(s: string, e: nat)
    requires e < |s| && MatchAfterPost(s, e).Found?
    ensures e < LineEnd(s, e + 1) < |s| && s[LineEnd(s, e + 1)] == '\n'
    ensures TaggedLine(s[e + 1..LineEnd(s, e + 1)], TimePrefix)
    ensures MatchAfterPost(s, e) == MatchAfterTime(s, e, LineEnd(s, e + 1))
  {
    TaggedLineSound(s, e + 1, TimePrefix);
  }

  /** A match found after the Time line stops at the end of its URL line. */
  lemma MatchAfterTimeFound(s: string, e: nat, t: nat)
    requires e < t < |s| && MatchAfterTime(s, e, t).Found?
    ensures var stop := LineEnd(s, t + 1); stop == |s| || s[stop] == '\n'
    ensures TaggedLine(s[t + 1..LineEnd(s, t + 1)], UrlPrefix)
    ensures MatchAfterTime(s, e, t) == Found(e, t, LineEnd(s, t + 1))
  {
    TaggedLineSound(s, t + 1, UrlPrefix);
  }

  /** A tagged line read up to its break is a TaggedLine. */
  lemma TaggedLineSound(s: string, k: nat, prefix: string)
    requires k <= |s| && TaggedLineAt(s, k, prefix)
    ensures TaggedLine(s[k..LineEnd(s, k)], prefix)
  {
    var e := LineEnd(s, k);
    forall i | 0 <= i < e - k ensures s[k..e][i] != '\n' {
      assert s[k..e][i] == s[k + i];
    }
  }

  /** The lines the repetition took form a valid group 2. */
  lemma PostLinesArePostText(s: string, b: nat, e0: nat, e: nat)
    requires b < e0 <= |s| && e0 == LineEnd(s, b)
    requires e0 <= e < |s| && s[e] == '\n' && s[e - 1] != '\n'
    requires forall k :: e0 <= k < e ==> BreakContinues(s, k)
    ensures PostText(s[b..e])
  {
    var t := s[b..e];
    forall k | 0 <= k < |t| ensures BreakContinues(t, k) {
      if t[k] == '\n' {
        assert s[b + k] == '\n';
        assert e0 <= b + k && BreakContinues(s, b + k);
        ContinuesWithin(s, b, e, b + k + 1);
      }
    }
  }

  /** A text without '\n' starts a line exactly when it starts that line's part before the break. */
  lemma StartsWithinLine(s: string, a: nat, e: nat, x: string)
    requires a <= e < |s| && s[e] == '\n' && '\n' !in x
    ensures StartsWith(s[a..], x) <==> StartsWith(s[a..e], x)
  {
    if a + |x| > e && |x| <= |s| - a {
      assert s[a..][..|x|][e - a] == '\n';
    }
    if a + |x| <= e {
      assert s[a..][..|x|] == s[a..e][..|x|];
    }
  }

  /** Continuing a post can be read inside the post's own text. */
  lemma ContinuesWithin(s: string, b: nat, e: nat, k: nat)
    requires b < k <= e < |s| && s[e] == '\n'
    ensures ContinuesPost(s, k) <==> ContinuesPost(s[b..e], k - b)
  {
    var t := s[b..e];
    if k < e {
      assert t[k - b..] == s[k..e];
      assert t[k - b] == s[k];
      StartsWithinLine(s, k, e, "- Time:");
      StartsWithinLine(s, k, e, "- URL:");
    }
  }

  /** The line that starts at `k` and holds no break before `e` ends at `e`. */
  lemma {:induction false} LineEndAt(s: string, k: nat, e: nat)
    requires k <= e <= |s| && (e == |s| || s[e] == '\n')
    requires forall i :: k <= i < e ==> s[i] != '\n'
    ensures LineEnd(s, k) == e
    decreases e - k
  {
    if k < e {
      LineEndAt(s, k + 1, e);
    }
  }

  /** The repetition stops exactly at the break before the Time line. */
  lemma {:induction false} PostLinesEndReaches(s: string, e: nat, stop: nat)
    requires 0 < e <= stop < |s| && s[e - 1] != '\n' && s[e] == '\n' && s[stop] == '\n'
    requires forall k :: e <= k < stop ==> BreakContinues(s, k)
    requires !ContinuesPost(s, stop + 1)
    ensures PostLinesEnd(s, e) == stop
    decreases stop - e
  {
    if e < stop {
      assert BreakContinues(s, e);
      var next := LineEnd(s, e + 1);
      assert next <= stop;
      PostLinesEndReaches(s, next, stop);
    }
  }

  /** The first line of a post ends inside the post, after at least one character. */
  lemma PostFirstLine(s: string, b: nat, e: nat)
    requires b < e < |s| && s[e] == '\n' && PostText(s[b..e])
    ensures b < LineEnd(s, b) <= e && s[LineEnd(s, b) - 1] != '\n'
  {
    assert s[b] == s[b..e][0];
  }

  /** Inside a post every break is followed by a line that continues it. */
  lemma PostTextContinues(s: string, b: nat, e: nat)
    requires b < e < |s| && s[e] == '\n' && PostText(s[b..e])
    ensures s[e - 1] != '\n'
    ensures forall k :: b <= k < e ==> BreakContinues(s, k)
  {
    var t := s[b..e];
    assert s[e - 1] == t[|t| - 1];
    forall k | b <= k < e ensures BreakContinues(s, k) {
      if s[k] == '\n' {
        assert t[k - b] == s[k] && BreakContinues(t, k - b);
        ContinuesWithin(s, b, e, k + 1);
      }
    }
  }

  /**
   * A post followed by a line starting "- Time:" is exactly what PostEnd
   * reads: that line stops the repetition.
   */
  lemma PostEndComplete(s: string, p: nat, e: nat)
    requires p + |PostPrefix| < e < |s| && s[e] == '\n'
    requires s[p..p + |PostPrefix|] == PostPrefix && PostText(s[p + |PostPrefix|..e])
    requires StartsWith(s[e + 1..], "- Time:")
    ensures PostStarts(s, p) && PostEnd(s, p) == e
  {
    var b := p + |PostPrefix|;
    assert s[p..][..|PostPrefix|] == s[p..b];
    PostFirstLine(s, b, e);
    PostTextContinues(s, b, e);
    PostLinesEndReaches(s, LineEnd(s, b), e);
  }

  /** A tagged line running from `k` to a break or the end is what TaggedLineAt reads. */
  lemma TaggedLineComplete(s: string, k: nat, e: nat, prefix: string)
    requires k <= e <= |s| && (e == |s| || s[e] == '\n') && TaggedLine(s[k..e], prefix)
    ensures LineEnd(s, k) == e && TaggedLineAt(s, k, prefix)
  {
    forall i | k <= i < e ensures s[i] != '\n' {
      assert s[i] == s[k..e][i - k];
    }
    LineEndAt(s, k, e);
  }

  /** Wherever the pattern admits a match at `p`, the matcher finds that match. */
  lemma MatchAtComplete(s: string, p: nat, e: nat, t: nat, stop: nat)
    requires Shape(s, p, e, t, stop)
    ensures MatchAt(s, p) == Found(e, t, stop)
  {
    TimeLineStarts(s, e, t);
    PostEndComplete(s, p, e);
    TaggedLineComplete(s, e + 1, t, TimePrefix);
    TaggedLineComplete(s, t + 1, stop, UrlPrefix);
    MatchAfterPostIs(s, e, t, stop);
  }

  /** A Time line starts with "- Time:", which stops the post's repetition. */
  lemma TimeLineStarts(s: string, e: nat, t: nat)
    requires e < t <= |s| && TaggedLine(s[e + 1..t], TimePrefix)
    ensures StartsWith(s[e + 1..], "- Time:")
  {
    assert s[e + 1..][..7] == s[e + 1..t][..7];
  }

  /** Tagged Time and URL lines after the post's break `e` complete the match. */
  lemma MatchAfterPostIs(s: string, e: nat, t: nat, stop: nat)
    requires e < t < |s| && TaggedLineAt(s, e + 1, TimePrefix) && LineEnd(s, e + 1) == t
    requires TaggedLineAt(s, t + 1, UrlPrefix) && LineEnd(s, t + 1) == stop
    ensures MatchAfterPost(s, e) == Found(e, t, stop)
  {
    assert MatchAfterTime(s, e, t) == Found(e, t, stop);
  }

  // ---------------------------------------------------------------------
  // The substitution
  // ---------------------------------------------------------------------

  /**
   * `pattern.sub(callback, s[p:])`: scanning left to right, each match is
   * replaced by the callback's text for its groups (None keeps
   * `match.group(0)`) and the scan resumes after it; any other character
   * is copied.
   */
  function Substitute(s: string, p: nat, callback: Groups -> Option<string>): string
    requires p <= |s|
    decreases |s| - p
  {
    if p == |s| then ""
    else
      var m := MatchAt(s, p);
      if m.NoMatch? then [s[p]] + Substitute(s, p + 1, callback)
      else
        match callback(GroupsOf(s, p, m))
        case None => s[p..m.stop] + Substitute(s, m.stop, callback)
        case Some(text) => text + Substitute(s, m.stop, callback)
  }

  /** A callback that keeps every match leaves the text exactly as it was. */
  lemma {:induction false} KeepAllIsIdentity(s: string, p: nat, callback: Groups -> Option<string>)
    requires p <= |s|
    requires forall g :: callback(g).None?
    ensures Substitute(s, p, callback) == s[p..]
    decreases |s| - p
  {
    if p < |s| {
      var m := MatchAt(s, p);
      if m.NoMatch? {
        KeepAllIsIdentity(s, p + 1, callback);
        SuffixCons(s, p);
      } else {
        KeepAllIsIdentity(s, m.stop, callback);
        SuffixSplit(s, p, m.stop);
      }
    }
  }

  /** The translation that replaces a post, if any: English text and a non-empty answer. */
  function Translation(g: Groups, tool: string, translate: (string, string) -> Option<string>): (r: Option<string>)
    ensures r.Some? <==> IsEnglishPost(Strip(g.post)) && TranslateReportsV2.Answered(translate(Strip(g.post), tool))
    ensures r.Some? ==> r == translate(Strip(g.post), tool)
  {
    var post := Strip(g.post);
    if IsEnglishPost(post) && TranslateReportsV2.Answered(translate(post, tool)) then translate(post, tool) else None
  }

  /**
   * translate_match: a translated match becomes "- Post: " and the answer,
   * then the match's own Time and URL lines; None keeps the match.
   */
  function TranslateMatch(tool: string, translate: (string, string) -> Option<string>): Groups -> Option<string>
  {
    g => match Translation(g, tool, translate)
         case None => None
         case Some(t) => Some(PostPrefix + t + "\n" + g.time + "\n" + g.url)
  }

  /**
   * A translated match keeps its Time and URL lines exactly and puts the
   * answer after "- Post: "; it is the match with its post text replaced.
   */
  lemma TranslateMatchKeepsTimeUrl(g: Groups, tool: string, translate: (string, string) -> Option<string>)
    requires TranslateMatch(tool, translate)(g).Some?
    ensures var r := TranslateMatch(tool, translate)(g).value;
      var answer := translate(Strip(g.post), tool).value;
      answer != "" && StartsWith(r, PostPrefix + answer)
      && EndsWith(r, "\n" + g.time + "\n" + g.url)
      && r == UnitText(Groups(answer, g.time, g.url))
  {
    var answer := translate(Strip(g.post), tool).value;
    var r := PostPrefix + answer + "\n" + g.time + "\n" + g.url;
    var tail := "\n" + g.time + "\n" + g.url;
    AppendAssoc(PostPrefix + answer + "\n" + g.time, "\n", g.url);
    AppendAssoc(PostPrefix + answer + "\n", g.time, "\n" + g.url);
    AppendAssoc(PostPrefix + answer, "\n", g.time + "\n" + g.url);
    AppendAssoc(PostPrefix + answer, "\n" + g.time, "\n" + g.url);
    assert r == (PostPrefix + answer) + tail;
    assert r[..|PostPrefix + answer|] == PostPrefix + answer;
    assert r[|r| - |tail|..] == tail;
  }

  /**
   * process_report_file(): every post block rewritten with the tool name
   * taken from the file name; the new content is written (and True
   * returned) exactly when it differs from the old.
   */
  function ProcessReportFile(content: string, stem: string, translate: (string, string) -> Option<string>): (r: Option<string>)
    ensures var updated := Substitute(content, 0, TranslateMatch(TranslateReportsV2.ToolName(stem), translate));
      && (r.Some? <==> updated != content)
      && (r.Some? ==> r.value == updated)
    ensures r.Some? ==> r.value != content
  {
    var updated := Substitute(content, 0, TranslateMatch(TranslateReportsV2.ToolName(stem), translate));
    if updated != content then Some(updated) else None
  }

  /** When no post would be translated, the file is not written. */
  lemma NoTranslationNoWrite(content: string, stem: string, translate: (string, string) -> Option<string>)
    requires forall g :: Translation(g, TranslateReportsV2.ToolName(stem), translate).None?
    ensures ProcessReportFile(content, stem, translate).None?
  {
    var callback := TranslateMatch(TranslateReportsV2.ToolName(stem), translate);
    forall g ensures callback(g).None? {
      assert Translation(g, TranslateReportsV2.ToolName(stem), translate).None?;
    }
    KeepAllIsIdentity(content, 0, callback);
    assert content[0..] == content;
  }
}
