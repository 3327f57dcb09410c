/**
 * The daily-report markdown format shared by the three report parsers
 * (post_to_x.py, build_site.py, post_to_line.py): the category heading,
 * the split into tool sections on line-initial "## ", the tool line and
 * body of a section, the "no news" sentinels, and the labelled fields
 * such as "- **Summary**: ...".
 */
module ReportSections {
  import opened Wrappers
  import opened Text

  // ---------------------------------------------------------------------
  // Category: re.search(r'# (.*?) - Daily Report', content)
  // ---------------------------------------------------------------------

  const CategoryOpen := "# "
  const CategoryClose := " - Daily Report"

  /** The regex matches at `i` with its lazy group spanning `s[i+2..e]`. */
  predicate CategoryMatch(s: string, i: int, e: int)
  {
    0 <= i && i + 2 <= e <= |s| && s[i..i + 2] == CategoryOpen
    && (forall k :: i + 2 <= k < e ==> s[k] != '\n')
    && StartsWith(s[e..], CategoryClose)
  }

  /** The shortest group end at or after `e` for a match starting at `i`. */
  function LazyEnd(s: string, i: nat, e: nat): (r: Option<nat>)
    requires i + 2 <= e <= |s| && s[i..i + 2] == CategoryOpen
    requires forall k :: i + 2 <= k < e ==> s[k] != '\n'
    ensures r.Some? ==> e <= r.value && CategoryMatch(s, i, r.value)
    ensures r.Some? ==> forall e' :: e <= e' < r.value ==> !CategoryMatch(s, i, e')
    ensures r.None? ==> forall e' :: e <= e' ==> !CategoryMatch(s, i, e')
    decreases |s| - e
  {
    if StartsWith(s[e..], CategoryClose) then Some(e)
    else if e == |s| || s[e] == '\n' then None
    else LazyEnd(s, i, e + 1)
  }

  /** The leftmost match at or after `i`, with its shortest group. */
  function CategorySearch(s: string, i: nat): (r: Option<(nat, nat)>)
    requires i <= |s|
    ensures r.Some? ==> i <= r.value.0 && CategoryMatch(s, r.value.0, r.value.1)
    ensures r.Some? ==> forall a, e :: i <= a < r.value.0 ==> !CategoryMatch(s, a, e)
    ensures r.Some? ==> forall e :: e < r.value.1 ==> !CategoryMatch(s, r.value.0, e)
    ensures r.None? ==> forall a, e :: i <= a ==> !CategoryMatch(s, a, e)
    decreases |s| - i
  {
    if i + 2 > |s| then None
    else if s[i..i + 2] == CategoryOpen then
      match LazyEnd(s, i, i + 2)
      case Some(e) => Some((i, e))
      case None => CategorySearch(s, i + 1)
    else CategorySearch(s, i + 1)
  }

  /**
   * Group 1 of the category regex, if it matches: a single line of text
   * that appears in the report as "# <category> - Daily Report".
   */
  function CategoryCapture(s: string): (r: Option<string>)
    ensures r.Some? ==> '\n' !in r.value && Contains(s, CategoryOpen + r.value + CategoryClose)
    ensures r.None? <==> forall a, e :: !CategoryMatch(s, a, e)
  {
    match CategorySearch(s, 0)
    case None => None
    case Some((a, e)) =>
      var c := s[a + 2..e];
      var pat := CategoryOpen + c + CategoryClose;
      assert '\n' !in c by {
        forall k | 0 <= k < |c| ensures c[k] != '\n' {
          assert c[k] == s[a + 2 + k];
        }
      }
      assert s[a..a + |pat|] == pat by {
        assert s[a..a + |pat|] == s[a..a + 2] + s[a + 2..e] + s[e..][..|CategoryClose|];
      }
      assert OccursAt(s, pat, a);
      ContainsIff(s, pat);
      Some(c)
  }

  // ---------------------------------------------------------------------
  // Sections: re.split(r'^## ', content, flags=re.MULTILINE)
  // ---------------------------------------------------------------------

  const Marker := "## "

  /** A section heading "## " at the start of a line. */
  predicate MarkerAt(s: string, p: int)
  {
    0 <= p && p + 3 <= |s| && s[p..p + 3] == Marker && (p == 0 || s[p - 1] == '\n')
  }

  function NextMarker(s: string, from: nat): (r: Option<nat>)
    requires from <= |s|
    ensures r.Some? ==> from <= r.value && MarkerAt(s, r.value)
    ensures r.Some? ==> forall q :: from <= q < r.value ==> !MarkerAt(s, q)
    ensures r.None? ==> forall q :: from <= q ==> !MarkerAt(s, q)
    decreases |s| - from
  {
    if from + 3 > |s| then None
    else if MarkerAt(s, from) then Some(from)
    else NextMarker(s, from + 1)
  }

  /**
   * The pieces of `s[from..]` between the markers; joining them back with
   * "## " gives `s[from..]` again.
   */
  function SplitFrom(s: string, from: nat): (r: seq<string>)
    requires from <= |s|
    ensures |r| >= 1
    ensures Join(Marker, r) == s[from..]
    decreases |s| - from
  {
    match NextMarker(s, from)
    case None => [s[from..]]
    case Some(p) =>
      var rest := SplitFrom(s, p + 3);
      assert ([s[from..p]] + rest)[1..] == rest;
      assert s[from..] == s[from..p] + s[p..p + 3] + s[p + 3..];
      [s[from..p]] + rest
  }

  /** `re.split(r'^## ', content, flags=re.MULTILINE)` */
  function SplitOnMarkers(s: string): (r: seq<string>)
    ensures |r| >= 1 && Join(Marker, r) == s
  {
    SplitFrom(s, 0)
  }

  /** The tool sections: every piece after a marker (the preamble is dropped). */
  function Sections(s: string): seq<string>
  {
    SplitOnMarkers(s)[1..]
  }

  /** No piece of the split holds a line-initial "## ". */
  lemma {:induction false} SplitPiecesHaveNoMarker(s: string, from: nat)
    requires from <= |s|
    ensures forall k :: 0 <= k < |SplitFrom(s, from)| ==> !Contains(SplitFrom(s, from)[k], "\n## ")
    decreases |s| - from
  {
    var r := SplitFrom(s, from);
    match NextMarker(s, from)
    case None =>
      NoMarkerNoNewlineMarker(s, from, |s|);
      assert r == [s[from..]];
      assert s[from..] == s[from..|s|];
    case Some(p) =>
      SplitPiecesHaveNoMarker(s, p + 3);
      var rest := SplitFrom(s, p + 3);
      assert r == [s[from..p]] + rest;
      NoMarkerNoNewlineMarker(s, from, p);
      forall k | 0 <= k < |r| ensures !Contains(r[k], "\n## ") {
        if k > 0 {
          assert r[k] == rest[k - 1];
        } else {
          assert r[k] == s[from..p];
        }
      }
  }

  /** The preamble of a report does not start with a section heading. */
  lemma PreambleNotMarker(s: string)
    ensures !StartsWith(SplitOnMarkers(s)[0], Marker)
  {
    var r := SplitFrom(s, 0);
    match NextMarker(s, 0)
    case None =>
      assert !MarkerAt(s, 0);
      if |s| >= 3 {
        assert s[..3] == s[0..3];
      }
    case Some(p) =>
      assert r[0] == s[0..p];
      assert !MarkerAt(s, 0) || p == 0;
      if p >= 3 {
        assert s[0..p][..3] == s[0..3];
      }
  }

  /**
   * Every piece but the last ends with the newline before the next marker,
   * except an empty preamble when the report starts with "## ".
   */
  lemma {:induction false} SplitPiecesEndAtLineBreak(s: string, from: nat)
    requires from <= |s|
    requires from == 0 || s[from - 1] != '\n'
    ensures forall k :: 0 <= k < |SplitFrom(s, from)| - 1 ==>
      EndsWith(SplitFrom(s, from)[k], "\n") || (k == 0 && from == 0 && SplitFrom(s, from)[k] == "")
    decreases |s| - from
  {
    var r := SplitFrom(s, from);
    match NextMarker(s, from)
    case None =>
    case Some(p) =>
      SplitPiecesEndAtLineBreak(s, p + 3);
      var rest := SplitFrom(s, p + 3);
      assert r == [s[from..p]] + rest;
      var first := s[from..p];
      assert EndsWith(first, "\n") || (from == 0 && first == "") by {
        if p > from {
          assert first[|first| - 1..] == [s[p - 1]];
        }
      }
      forall k | 0 <= k < |r| - 1
        ensures EndsWith(r[k], "\n") || (k == 0 && from == 0 && r[k] == "")
      {
        if k > 0 {
          assert r[k] == rest[k - 1];
        }
      }
  }

  /** A stretch without a marker holds no "\n## ". */
  lemma NoMarkerNoNewlineMarker(s: string, from: nat, to: nat)
    requires from <= to <= |s|
    requires forall q :: from <= q < to ==> !MarkerAt(s, q)
    ensures !Contains(s[from..to], "\n## ")
  {
    if Contains(s[from..to], "\n## ") {
      ContainsIff(s[from..to], "\n## ");
      var i :| OccursAt(s[from..to], "\n## ", i);
      SliceOfSlice(s, from, to, i, i + 4);
      assert s[from + i..from + i + 4] == "\n## ";
      assert s[from + i + 1..from + i + 4] == s[from + i..from + i + 4][1..];
      assert MarkerAt(s, from + i + 1);
    }
  }

  // ---------------------------------------------------------------------
  // One section: tool line and body
  // ---------------------------------------------------------------------

  datatype Section = Section(tool: string, body: string)

  /**
   * lines = section.strip().split('\n'); tool = lines[0].strip();
   * body = "\n".join(lines[1:]).strip()
   */
  function ParseSection(section: string): Section
  {
    var lines := Split(Strip(section), '\n');
    Section(Strip(lines[0]), Strip(Join("\n", lines[1..])))
  }

  /**
   * The tool is the stripped first line of the stripped section and the
   * body is everything after that line, stripped.
   */
  lemma ParseSectionLines(section: string)
    ensures var t := Strip(section);
      ParseSection(section) ==
        if '\n' in t then Section(Strip(t[..IndexOf(t, '\n')]), Strip(t[IndexOf(t, '\n') + 1..]))
        else Section(t, "")
  {
    var t := Strip(section);
    StripIdempotent(section);
    if '\n' in t {
      var k := IndexOf(t, '\n');
      var rest := Split(t[k + 1..], '\n');
      assert Split(t, '\n') == [t[..k]] + rest;
      assert Split(t, '\n')[1..] == rest;
    }
  }

  /** The tool sections of a report, each split into its tool line and body. */
  function ParsedSections(content: string): (secs: seq<Section>)
    ensures |secs| == |Sections(content)|
  {
    var raw := Sections(content);
    seq(|raw|, k requires 0 <= k < |raw| => ParseSection(raw[k]))
  }

  /** "Updates not found" / "No significant news" / an empty body. */
  predicate IsNoNewsBody(body: string)
  {
    Contains(body, "Updates not found") || Contains(body, "No significant news") || body == ""
  }

  // ---------------------------------------------------------------------
  // Labelled fields: re.search(r'(?:- )?\*\*Summary\*\*:? (.*)', body)
  // ---------------------------------------------------------------------

  /**
   * `key` (such as "**Summary**") at `q`, followed by ": " or " ".  The
   * optional "- " prefix of the regex only moves the start of the match two
   * characters left; two occurrences of a key "**X..." with X not '*'
   * are at least three characters apart, so the leftmost match always uses
   * the first such key and its group 1 is the text after it.
   */
  predicate LabelAt(s: string, key: string, q: int)
  {
    0 <= q && q + |key| <= |s| && s[q..q + |key|] == key
    && (StartsWith(s[q + |key|..], ": ") || StartsWith(s[q + |key|..], " "))
  }

  /** Where group 1 starts: after ": " when the colon is there, else after " ". */
  function ValueStart(s: string, key: string, q: int): (v: nat)
    requires LabelAt(s, key, q)
    ensures q + |key| < v <= |s|
  {
    if StartsWith(s[q + |key|..], ": ") then q + |key| + 2 else q + |key| + 1
  }

  function FirstLabel(s: string, key: string, from: nat): (r: Option<nat>)
    requires from <= |s|
    ensures r.Some? ==> from <= r.value && LabelAt(s, key, r.value)
    ensures r.Some? ==> forall q :: from <= q < r.value ==> !LabelAt(s, key, q)
    ensures r.None? ==> forall q :: from <= q ==> !LabelAt(s, key, q)
    decreases |s| - from
  {
    if from + |key| >= |s| then None
    else if LabelAt(s, key, from) then Some(from)
    else FirstLabel(s, key, from + 1)
  }

  /**
   * Group 1 of the labelled-field regex: the rest of the line after the
   * first key followed by ": " or " " (`.` stops at a newline); `None`
   * exactly when no key is followed by one of those.
   */
  function SearchField(s: string, key: string): (r: Option<string>)
    ensures r.Some? ==> '\n' !in r.value
  {
    match FirstLabel(s, key, 0)
    case None => None
    case Some(q) =>
      var v := ValueStart(s, key, q);
      var r := s[v..LineEnd(s, v)];
      assert '\n' !in r by {
        forall k | 0 <= k < |r| ensures r[k] != '\n' {
          assert r[k] == s[v + k];
        }
      }
      Some(r)
  }

  /** A field is found exactly when its key occurs followed by ": " or " ". */
  lemma SearchFieldFound(s: string, key: string)
    ensures SearchField(s, key).None? <==> forall q :: !LabelAt(s, key, q)
  {
    if SearchField(s, key).Some? {
      assert LabelAt(s, key, FirstLabel(s, key, 0).value);
    }
  }

  /** A found field is the rest of the line after the first occurrence of its key. */
  lemma SearchFieldIsFirstLabel(s: string, key: string)
    requires SearchField(s, key).Some?
    ensures exists q ::
      && LabelAt(s, key, q)
      && (forall q' :: 0 <= q' < q ==> !LabelAt(s, key, q'))
      && SearchField(s, key).value == s[ValueStart(s, key, q)..LineEnd(s, ValueStart(s, key, q))]
  {
    var q := FirstLabel(s, key, 0).value;
    assert LabelAt(s, key, q);
  }

  /** A field can only be found where its key occurs. */
  lemma SearchFieldNeedsLabel(s: string, key: string)
    requires !Contains(s, key)
    ensures SearchField(s, key).None?
  {
    ContainsIff(s, key);
    forall q ensures !LabelAt(s, key, q) {
      assert !OccursAt(s, key, q);
    }
    SearchFieldFound(s, key);
  }
}
