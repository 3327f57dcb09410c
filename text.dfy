/**
 * Python string primitives the scripts rely on, over strings of code points:
 * `strip`, `startswith`, `in`, `replace`, `split`/`join` on one character,
 * slicing, `lower` and `str(n)`, plus the regex pieces shared by several
 * scripts (`.` stopping at a newline, `\b` word boundaries).
 */
module Text {

  /** Python's `str.isspace`: the characters `strip()` removes. */
  predicate IsSpace(c: char)
  {
    c == ' ' || ('\t' <= c <= '\r') || ('\U{1C}' <= c <= '\U{1F}') || c == '\U{85}' || c == '\U{A0}'
    || c == '\U{1680}' || ('\U{2000}' <= c <= '\U{200A}') || c == '\U{2028}' || c == '\U{2029}'
    || c == '\U{202F}' || c == '\U{205F}' || c == '\U{3000}'
  }

  predicate StartsWith(s: string, p: string)
  {
    |p| <= |s| && s[..|p|] == p
  }

  predicate EndsWith(s: string, p: string)
  {
    |p| <= |s| && s[|s| - |p|..] == p
  }

  /** `p` occurs in `s` starting at index `i`. */
  predicate OccursAt(s: string, p: string, i: int)
  {
    0 <= i && i + |p| <= |s| && s[i..i + |p|] == p
  }

  /** Python's `p in s`. */
  predicate Contains(s: string, p: string)
    decreases |s|
  {
    StartsWith(s, p) || (s != [] && Contains(s[1..], p))
  }

  /**
   * Concatenation regroups. Stated once so that proofs need not rediscover
   * it element by element, which is costly when the parts are `strip()`s.
   */
  lemma AppendAssoc<T>(a: seq<T>, b: seq<T>, c: seq<T>)
    ensures (a + b) + c == a + (b + c)
  {
  }

  /** A concatenation starts with its left part. */
  lemma StartsWithConcat(a: string, b: string)
    ensures StartsWith(a + b, a)
  {
    assert (a + b)[..|a|] == a;
  }

  /** A concatenation ends with its right part. */
  lemma EndsWithConcat(a: string, b: string)
    ensures EndsWith(a + b, b)
  {
    assert (a + b)[|a|..] == b;
  }

  /** A suffix is the stretch up to `b` followed by the suffix from `b`. */
  lemma SuffixSplit<T>(s: seq<T>, a: int, b: int)
    requires 0 <= a <= b <= |s|
    ensures s[a..] == s[a..b] + s[b..]
  {
  }

  /** A longer prefix is the shorter one and the next element. */
  lemma PrefixStep<T>(s: seq<T>, j: int)
    requires 0 <= j < |s|
    ensures s[..j + 1] == s[..j] + [s[j]]
  {
  }

  /** A non-empty suffix is its first element followed by the rest. */
  lemma SuffixCons<T>(s: seq<T>, a: int)
    requires 0 <= a < |s|
    ensures s[a..] == [s[a]] + s[a + 1..]
  {
  }

  /** An occurrence, established character by character. */
  lemma OccursAtByIndex(s: string, p: string, a: nat)
    requires a + |p| <= |s| && forall k :: 0 <= k < |p| ==> p[k] == s[a + k]
    ensures OccursAt(s, p, a)
  {
    assert forall k :: 0 <= k < |p| ==> s[a..a + |p|][k] == p[k];
  }

  lemma SliceOfSlice(s: string, a: int, b: int, c: int, d: int)
    requires 0 <= a <= b <= |s| && 0 <= c <= d <= b - a
    ensures s[a..b][c..d] == s[a + c..a + d]
  {
    assert forall k :: 0 <= k < d - c ==> s[a..b][c..d][k] == s[a + c..a + d][k];
  }

  lemma {:induction false} ContainsIff(s: string, p: string)
    ensures Contains(s, p) <==> exists i :: OccursAt(s, p, i)
    decreases |s|
  {
    if s == [] {
      if exists i :: OccursAt(s, p, i) {
        var i :| OccursAt(s, p, i);
        assert StartsWith(s, p);
      }
      if Contains(s, p) {
        assert OccursAt(s, p, 0);
      }
    } else {
      ContainsIff(s[1..], p);
      if StartsWith(s, p) {
        assert OccursAt(s, p, 0);
      }
      if Contains(s[1..], p) {
        var i :| OccursAt(s[1..], p, i);
        SliceOfSlice(s, 1, |s|, i, i + |p|);
        assert OccursAt(s, p, i + 1);
      }
      if exists i :: OccursAt(s, p, i) {
        var i :| OccursAt(s, p, i);
        if i == 0 {
          assert StartsWith(s, p);
        } else {
          var t := s[1..];
          assert t == s[1..|s|];
          SliceOfSlice(s, 1, |s|, i - 1, i - 1 + |p|);
          assert t[i - 1..i - 1 + |p|] == s[i..i + |p|];
          assert OccursAt(t, p, i - 1);
        }
      }
    }
  }

  /** A string that occurs inside `t` is found in `s` whenever `t` is found in `s`. */
  lemma ContainsTransitive(s: string, t: string, p: string)
    requires Contains(s, t) && Contains(t, p)
    ensures Contains(s, p)
  {
    ContainsIff(s, t);
    ContainsIff(t, p);
    var i :| OccursAt(s, t, i);
    var j :| OccursAt(t, p, j);
    SliceOfSlice(s, i, i + |t|, j, j + |p|);
    assert OccursAt(s, p, i + j);
    ContainsIff(s, p);
  }

  /** How many whitespace characters `s` starts with. */
  function LeadSpace(s: string): (n: nat)
    ensures n <= |s| && (n < |s| ==> !IsSpace(s[n]))
    decreases |s|
  {
    if s != [] && IsSpace(s[0]) then 1 + LeadSpace(s[1..]) else 0
  }

  /** The leading run is all whitespace. */
  lemma {:induction false} LeadSpaceIsSpace(s: string)
    ensures forall i :: 0 <= i < LeadSpace(s) ==> IsSpace(s[i])
    decreases |s|
  {
    if s != [] && IsSpace(s[0]) {
      LeadSpaceIsSpace(s[1..]);
      forall i | 1 <= i < LeadSpace(s) ensures IsSpace(s[i]) {
        assert s[i] == s[1..][i - 1];
      }
    }
  }

  /** Where the trailing whitespace of `s` begins. */
  function TrailSpace(s: string): (n: nat)
    ensures n <= |s| && (n > 0 ==> !IsSpace(s[n - 1]))
    decreases |s|
  {
    if s != [] && IsSpace(s[|s| - 1]) then TrailSpace(s[..|s| - 1]) else |s|
  }

  /** The trailing run is all whitespace. */
  lemma {:induction false} TrailSpaceIsSpace(s: string)
    ensures forall i :: TrailSpace(s) <= i < |s| ==> IsSpace(s[i])
    decreases |s|
  {
    if s != [] && IsSpace(s[|s| - 1]) {
      TrailSpaceIsSpace(s[..|s| - 1]);
      forall i | TrailSpace(s) <= i < |s| - 1 ensures IsSpace(s[i]) {
        assert s[i] == s[..|s| - 1][i];
      }
    }
  }

  /**
   * `s.strip()`: the slice between the leading and the trailing whitespace.
   * Written as a slice rather than by recursion on the string, so that a
   * stripped string inside a concatenation is one term, not a case split.
   */
  function Strip(s: string): (r: string)
    ensures r != [] ==> !IsSpace(r[0]) && !IsSpace(r[|r| - 1])
  {
    var t := s[LeadSpace(s)..];
    t[..TrailSpace(t)]
  }

  /** `s.strip()` is the infix of `s` that starts after the leading whitespace. */
  lemma StripChars(s: string)
    ensures LeadSpace(s) + |Strip(s)| <= |s|
    ensures forall k :: 0 <= k < |Strip(s)| ==> Strip(s)[k] == s[LeadSpace(s) + k]
  {
  }

  /** What `s.strip()` drops on either side of that infix is all whitespace. */
  lemma StripDropsSpace(s: string)
    ensures forall i :: 0 <= i < LeadSpace(s) ==> IsSpace(s[i])
    ensures forall i :: LeadSpace(s) + |Strip(s)| <= i < |s| ==> IsSpace(s[i])
  {
    var n := LeadSpace(s);
    var t := s[n..];
    assert |Strip(s)| == TrailSpace(t);
    LeadSpaceIsSpace(s);
    TrailSpaceIsSpace(t);
    forall i | n + TrailSpace(t) <= i < |s| ensures IsSpace(s[i]) {
      assert s[i] == t[i - n];
    }
  }

  /** `s.strip()` is empty exactly when `s` is all whitespace. */
  lemma StripEmpty(s: string)
    ensures Strip(s) == [] <==> forall i :: 0 <= i < |s| ==> IsSpace(s[i])
  {
    var t := s[LeadSpace(s)..];
    LeadSpaceIsSpace(s);
    TrailSpaceIsSpace(t);
    if Strip(s) == [] {
      assert LeadSpace(s) == |s|;
    } else {
      assert s[LeadSpace(s)] == Strip(s)[0];
    }
  }

  lemma StripIdempotent(s: string)
    ensures Strip(Strip(s)) == Strip(s)
  {
    var r := Strip(s);
    if r != [] {
      assert LeadSpace(r) == 0;
      assert r[0..] == r;
      assert TrailSpace(r) == |r|;
    }
  }

  /** Position of the first `c` in `s`, as Python's `s.index(c)`. */
  function IndexOf(s: string, c: char): (k: nat)
    requires c in s
    ensures k < |s| && s[k] == c && c !in s[..k]
  {
    if s[0] == c then 0 else 1 + IndexOf(s[1..], c)
  }

  /** `sep.join(parts)` */
  function Join(sep: string, parts: seq<string>): string
  {
    if |parts| == 0 then ""
    else if |parts| == 1 then parts[0]
    else parts[0] + sep + Join(sep, parts[1..])
  }

  /**
   * `s.split(c)`: never empty, no piece holds `c`, and joining the pieces
   * with `c` gives back `s`.
   */
  function Split(s: string, c: char): (r: seq<string>)
    ensures |r| >= 1
    ensures forall i :: 0 <= i < |r| ==> c !in r[i]
    ensures Join([c], r) == s
    decreases |s|
  {
    if c !in s then [s]
    else
      var k := IndexOf(s, c);
      var rest := Split(s[k + 1..], c);
      assert ([s[..k]] + rest)[1..] == rest;
      assert s == s[..k] + [c] + s[k + 1..];
      [s[..k]] + rest
  }

  /** The other half of the round trip: splitting joined pieces gives them back. */
  lemma {:induction false} SplitJoin(parts: seq<string>, c: char)
    requires |parts| >= 1
    requires forall i :: 0 <= i < |parts| ==> c !in parts[i]
    ensures Split(Join([c], parts), c) == parts
    decreases |parts|
  {
    if |parts| > 1 {
      var s := Join([c], parts);
      var tail := Join([c], parts[1..]);
      assert s == parts[0] + [c] + tail;
      assert s[|parts[0]|] == c;
      assert c in s;
      assert s[..|parts[0]|] == parts[0];
      var k := IndexOf(s, c);
      assert forall j :: 0 <= j < k ==> s[j] != c by {
        forall j | 0 <= j < k ensures s[j] != c {
          assert s[..k][j] == s[j];
        }
      }
      assert forall j :: 0 <= j < |parts[0]| ==> s[j] != c by {
        forall j | 0 <= j < |parts[0]| ensures s[j] != c {
          assert s[j] == parts[0][j];
        }
      }
      assert k == |parts[0]|;
      assert s[|parts[0]| + 1..] == tail;
      SplitJoin(parts[1..], c);
    }
  }

  /** Python's `s.replace(pat, rep)`: left to right, non-overlapping. */
  function ReplaceAll(s: string, pat: string, rep: string): (r: string)
    requires pat != []
    ensures !Contains(s, pat) ==> r == s
    decreases |s|
  {
    if s == [] then []
    else if StartsWith(s, pat) then rep + ReplaceAll(s[|pat|..], pat, rep)
    else
      assert s == [s[0]] + s[1..];
      [s[0]] + ReplaceAll(s[1..], pat, rep)
  }

  /** Replacing every one-character `pat` by text without that character removes it. */
  lemma {:induction false} ReplaceCharGone(s: string, pat: string, rep: string)
    requires |pat| == 1 && pat[0] !in rep
    ensures pat[0] !in ReplaceAll(s, pat, rep)
    decreases |s|
  {
    if s != [] {
      if StartsWith(s, pat) {
        ReplaceCharGone(s[|pat|..], pat, rep);
      } else {
        ReplaceCharGone(s[1..], pat, rep);
        assert s[0] != pat[0] by { assert s[..1] == [s[0]]; }
      }
    }
  }

  /** Replacing one character by one character maps the text position by position. */
  lemma {:induction false} ReplaceCharByChar(s: string, pat: string, rep: string)
    requires |pat| == 1 && |rep| == 1
    ensures |ReplaceAll(s, pat, rep)| == |s|
    ensures forall i :: 0 <= i < |s| ==> ReplaceAll(s, pat, rep)[i] == (if s[i] == pat[0] then rep[0] else s[i])
    decreases |s|
  {
    if s != [] {
      ReplaceCharByChar(s[1..], pat, rep);
      assert StartsWith(s, pat) <==> s[0] == pat[0] by { assert s[..1] == [s[0]]; }
    }
  }

  /**
   * `s` with every occurrence of `c` left out and every other character
   * kept, in order and with its multiplicity.
   */
  function Without(s: string, c: char): (r: string)
    ensures c !in r
    ensures multiset(r) == multiset(s)[c := 0]
    decreases |s|
  {
    if s == [] then []
    else
      assert s == [s[0]] + s[1..];
      assert multiset(s) == multiset{s[0]} + multiset(s[1..]);
      if s[0] == c then Without(s[1..], c) else [s[0]] + Without(s[1..], c)
  }

  /** Removing a one-character pattern is the filter that leaves that character out. */
  lemma {:induction false} RemoveChar(s: string, pat: string)
    requires |pat| == 1
    ensures ReplaceAll(s, pat, "") == Without(s, pat[0])
    decreases |s|
  {
    if s != [] {
      RemoveChar(s[1..], pat);
      assert StartsWith(s, pat) <==> s[0] == pat[0] by { assert s[..1] == [s[0]]; }
    }
  }

  /** A pattern made of one repeated character, such as "**" or "```". */
  predicate Uniform(p: string)
  {
    p != [] && forall i :: 0 <= i < |p| ==> p[i] == p[0]
  }

  /** The number of leading `c` in `t`. */
  function Lead(t: string, c: char): nat
    decreases |t|
  {
    if t != [] && t[0] == c then 1 + Lead(t[1..], c) else 0
  }

  lemma {:induction false} StartsWithUniform(t: string, p: string)
    requires Uniform(p)
    ensures StartsWith(t, p) <==> Lead(t, p[0]) >= |p|
    decreases |p|
  {
    if |p| > 1 {
      var q := p[1..];
      assert Uniform(q) && q[0] == p[0] by { assert q[0] == p[1]; }
      if t != [] {
        StartsWithUniform(t[1..], q);
        if StartsWith(t, p) {
          assert t[0] == p[0] by { assert t[..|p|][0] == p[0]; }
          assert t[1..][..|q|] == t[..|p|][1..];
        }
        if t[0] == p[0] && StartsWith(t[1..], q) {
          assert t[..|p|] == [t[0]] + t[1..][..|q|];
        }
      }
    } else if t != [] {
      assert StartsWith(t, p) <==> t[0] == p[0] by { assert t[..1] == [t[0]]; }
    }
  }

  /** Removing a uniform pattern keeps a short run of its character at the front. */
  lemma {:induction false} RemoveKeepsShortLead(t: string, p: string)
    requires Uniform(p) && Lead(t, p[0]) < |p|
    ensures Lead(ReplaceAll(t, p, ""), p[0]) == Lead(t, p[0])
    decreases |t|
  {
    StartsWithUniform(t, p);
    if t != [] {
      var r := ReplaceAll(t[1..], p, "");
      assert ReplaceAll(t, p, "") == [t[0]] + r;
      assert ([t[0]] + r)[1..] == r;
      if t[0] == p[0] {
        RemoveKeepsShortLead(t[1..], p);
      }
    }
  }

  /**
   * After `s.replace(p, "")` for a pattern of one repeated character, the
   * pattern no longer occurs (this fails for patterns such as "ab": "aabb").
   */
  lemma {:induction false} RemoveUniformGone(s: string, p: string)
    requires Uniform(p)
    ensures !Contains(ReplaceAll(s, p, ""), p)
    decreases |s|
  {
    if s != [] {
      if StartsWith(s, p) {
        RemoveUniformGone(s[|p|..], p);
        assert ReplaceAll(s, p, "") == ReplaceAll(s[|p|..], p, "");
      } else {
        var t := ReplaceAll(s[1..], p, "");
        RemoveUniformGone(s[1..], p);
        assert ReplaceAll(s, p, "") == [s[0]] + t;
        assert ([s[0]] + t)[1..] == t;
        StartsWithUniform(s, p);
        StartsWithUniform([s[0]] + t, p);
        if s[0] == p[0] {
          RemoveKeepsShortLead(s[1..], p);
        }
      }
    }
  }

  /** `.replace("**", "")` leaves no "**". */
  lemma UnboldGone(s: string)
    ensures !Contains(ReplaceAll(s, "**", ""), "**")
  {
    assert Uniform("**");
    RemoveUniformGone(s, "**");
  }

  /** An infix of a string without `p` does not contain `p` either. */
  lemma NotContainsInfix(s: string, a: int, b: int, p: string)
    requires 0 <= a <= b <= |s| && !Contains(s, p)
    ensures !Contains(s[a..b], p)
  {
    if Contains(s[a..b], p) {
      ContainsIff(s[a..b], p);
      var i :| OccursAt(s[a..b], p, i);
      SliceOfSlice(s, a, b, i, i + |p|);
      assert OccursAt(s, p, a + i);
      ContainsIff(s, p);
    }
  }

  /** Python's `s[:n]`. */
  function Take(s: string, n: nat): (r: string)
    ensures |r| == (if n < |s| then n else |s|) && r == s[..|r|]
  {
    s[..if n < |s| then n else |s|]
  }

  /** Python's `s[:-m]` for `m > 0`: empty once `m` reaches the length. */
  function DropLast(s: string, m: nat): (r: string)
    requires m > 0
    ensures |r| == (if m <= |s| then |s| - m else 0) && r == s[..|r|]
  {
    s[..if m <= |s| then |s| - m else 0]
  }

  /** ASCII case folding; see README for the characters it leaves alone. */
  function LowerChar(c: char): char
  {
    if 'A' <= c <= 'Z' then (c as int + 32) as char else c
  }

  function Lower(s: string): (r: string)
    ensures |r| == |s|
  {
    seq(|s|, i requires 0 <= i < |s| => LowerChar(s[i]))
  }

  /** The end of the line that starts at `k`: the next '\n', or the end of `s`. */
  function LineEnd(s: string, k: nat): (e: nat)
    requires k <= |s|
    ensures k <= e <= |s| && (e < |s| ==> s[e] == '\n')
    ensures forall i :: k <= i < e ==> s[i] != '\n'
    decreases |s| - k
  {
    if k == |s| || s[k] == '\n' then k else LineEnd(s, k + 1)
  }

  predicate IsDigit(c: char)
  {
    '0' <= c <= '9'
  }

  function DigitChar(d: nat): (c: char)
    requires d < 10
    ensures IsDigit(c) && c as int - '0' as int == d
  {
    (48 + d) as char
  }

  /** `str(n)` for a non-negative integer. */
  function NatToString(n: nat): (r: string)
    ensures |r| >= 1 && forall i :: 0 <= i < |r| ==> IsDigit(r[i])
    decreases n
  {
    if n < 10 then [DigitChar(n)] else NatToString(n / 10) + [DigitChar(n % 10)]
  }

  /** The value of a string of decimal digits. */
  function DigitsValue(s: string): nat
    requires forall i :: 0 <= i < |s| ==> IsDigit(s[i])
  {
    if s == [] then 0
    else
      assert IsDigit(s[|s| - 1]);
      DigitsValue(s[..|s| - 1]) * 10 + (s[|s| - 1] as int - '0' as int)
  }

  lemma {:induction false} DigitsValueOfNatToString(n: nat)
    ensures DigitsValue(NatToString(n)) == n
    decreases n
  {
    if n >= 10 {
      var r := NatToString(n);
      assert r[..|r| - 1] == NatToString(n / 10);
      DigitsValueOfNatToString(n / 10);
    }
  }

  /** Different counts print differently. */
  lemma NatToStringInjective(a: nat, b: nat)
    requires NatToString(a) == NatToString(b)
    ensures a == b
  {
    DigitsValueOfNatToString(a);
    DigitsValueOfNatToString(b);
  }

  /**
   * Characters matched by the regex class `\w` in this model: ASCII letters,
   * digits and '_' and the Japanese kana and CJK ideograph blocks.
   */
  predicate IsWordChar(c: char)
  {
    ('a' <= c <= 'z') || ('A' <= c <= 'Z') || ('0' <= c <= '9') || c == '_'
    || ('\U{3041}' <= c <= '\U{3096}') || ('\U{30A1}' <= c <= '\U{30FA}') || c == '\U{30FC}'
    || ('\U{4E00}' <= c <= '\U{9FFF}')
  }

  /** The regex `\bw\b` (for a word `w` of word characters) matches `s` at `i`. */
  predicate WordAt(s: string, w: string, i: int)
  {
    OccursAt(s, w, i)
    && (i == 0 || !IsWordChar(s[i - 1]))
    && (i + |w| == |s| || !IsWordChar(s[i + |w|]))
  }

  /** `re.search(r'\bw\b', s)` succeeds. */
  predicate HasWord(s: string, w: string)
  {
    exists i | 0 <= i <= |s| :: WordAt(s, w, i)
  }

  /** How many of the words of `ws` occur as whole words in `s`. */
  function CountWords(s: string, ws: seq<string>): (n: nat)
    ensures n <= |ws|
  {
    if ws == [] then 0
    else if HasWord(s, ws[0]) then 1 + CountWords(s, ws[1..])
    else CountWords(s, ws[1..])
  }

  /** The word counts over a concatenated word list add up. */
  lemma {:induction false} CountWordsAppend(s: string, a: seq<string>, b: seq<string>)
    ensures CountWords(s, a + b) == CountWords(s, a) + CountWords(s, b)
    decreases |a|
  {
    if a != [] {
      assert (a + b)[0] == a[0] && (a + b)[1..] == a[1..] + b;
      CountWordsAppend(s, a[1..], b);
    } else {
      assert a + b == b;
    }
  }

  /** At least two of the words occur exactly when two different ones do. */
  lemma CountWordsAtLeastTwo(s: string, ws: seq<string>)
    ensures CountWords(s, ws) >= 2 <==>
      exists i, j :: 0 <= i < j < |ws| && HasWord(s, ws[i]) && HasWord(s, ws[j])
  {
    if CountWords(s, ws) >= 2 {
      CountTwoFindsPair(s, ws);
    }
    if exists i, j :: 0 <= i < j < |ws| && HasWord(s, ws[i]) && HasWord(s, ws[j]) {
      var i, j :| 0 <= i < j < |ws| && HasWord(s, ws[i]) && HasWord(s, ws[j]);
      PairCountsTwo(s, ws, i, j);
    }
  }

  lemma {:induction false} CountTwoFindsPair(s: string, ws: seq<string>)
    requires CountWords(s, ws) >= 2
    ensures exists i, j :: 0 <= i < j < |ws| && HasWord(s, ws[i]) && HasWord(s, ws[j])
    decreases |ws|
  {
    if !HasWord(s, ws[0]) {
      CountTwoFindsPair(s, ws[1..]);
      var i, j :| 0 <= i < j < |ws[1..]| && HasWord(s, ws[1..][i]) && HasWord(s, ws[1..][j]);
      assert HasWord(s, ws[i + 1]) && HasWord(s, ws[j + 1]);
    } else {
      CountWordsAtLeastOne(s, ws[1..]);
      var j :| 0 <= j < |ws[1..]| && HasWord(s, ws[1..][j]);
      assert HasWord(s, ws[0]) && HasWord(s, ws[j + 1]);
    }
  }

  lemma {:induction false} PairCountsTwo(s: string, ws: seq<string>, i: nat, j: nat)
    requires i < j < |ws| && HasWord(s, ws[i]) && HasWord(s, ws[j])
    ensures CountWords(s, ws) >= 2
    decreases |ws|
  {
    assert HasWord(s, ws[1..][j - 1]);
    if i > 0 {
      PairCountsTwo(s, ws[1..], i - 1, j - 1);
    } else {
      CountWordsAtLeastOne(s, ws[1..]);
    }
  }

  /** At least one of the words occurs exactly when some word does. */
  lemma {:induction false} CountWordsAtLeastOne(s: string, ws: seq<string>)
    ensures CountWords(s, ws) >= 1 <==> exists j :: 0 <= j < |ws| && HasWord(s, ws[j])
    decreases |ws|
  {
    if ws != [] {
      CountWordsAtLeastOne(s, ws[1..]);
      if exists j :: 0 <= j < |ws| && HasWord(s, ws[j]) {
        var j :| 0 <= j < |ws| && HasWord(s, ws[j]);
        if j > 0 {
          assert HasWord(s, ws[1..][j - 1]);
        }
      }
      if CountWords(s, ws[1..]) >= 1 {
        var j :| 0 <= j < |ws[1..]| && HasWord(s, ws[1..][j]);
        assert HasWord(s, ws[j + 1]);
      }
    }
  }

  /** A character missing from `s` and `rep` is missing after a replacement. */
  lemma {:induction false} ReplaceAllKeepsOut(s: string, pat: string, rep: string, c: char)
    requires pat != [] && c !in s && c !in rep
    ensures c !in ReplaceAll(s, pat, rep)
    decreases |s|
  {
    if s != [] {
      if StartsWith(s, pat) {
        assert s[|pat|..] == s[|pat|..];
        assert forall k :: |pat| <= k < |s| ==> s[k] == s[|pat|..][k - |pat|];
        ReplaceAllKeepsOut(s[|pat|..], pat, rep, c);
      } else {
        assert forall k :: 1 <= k < |s| ==> s[k] == s[1..][k - 1];
        ReplaceAllKeepsOut(s[1..], pat, rep, c);
      }
    }
  }

  /** Stripping adds no character. */
  lemma StripKeepsOut(s: string, c: char)
    requires c !in s
    ensures c !in Strip(s)
  {
    var r := Strip(s);
    forall k | 0 <= k < |r| ensures r[k] != c {
      assert r[k] == s[LeadSpace(s) + k];
    }
  }

  /** A prefix that begins and ends with non-space survives `strip()`. */
  lemma StripKeepsPrefix(s: string, p: string)
    requires StartsWith(s, p) && p != [] && !IsSpace(p[0]) && !IsSpace(p[|p| - 1])
    ensures StartsWith(Strip(s), p)
  {
    assert s[0] == p[0];
    assert LeadSpace(s) == 0;
    assert s[0..] == s;
    assert s[|p| - 1] == p[|p| - 1];
    TrailSpaceIsSpace(s);
    var r := Strip(s);
    assert |r| >= |p|;
    assert r[..|p|] == s[..|p|];
  }

  /** `s.find(p)` when `p` occurs: the first occurrence. */
  function Find(s: string, p: string): (i: nat)
    requires Contains(s, p)
    ensures OccursAt(s, p, i) && forall j :: 0 <= j < i ==> !OccursAt(s, p, j)
    decreases |s|
  {
    if StartsWith(s, p) then 0
    else
      assert s != [];
      var i := Find(s[1..], p);
      SliceOfSlice(s, 1, |s|, i, i + |p|);
      assert forall j :: 1 <= j <= |s| - |p| && OccursAt(s, p, j) ==> OccursAt(s[1..], p, j - 1) by {
        forall j | 1 <= j <= |s| - |p| && OccursAt(s, p, j) ensures OccursAt(s[1..], p, j - 1) {
          SliceOfSlice(s, 1, |s|, j - 1, j - 1 + |p|);
        }
      }
      1 + i
  }

  /** A text that lacks one character of `p` cannot contain `p`. */
  lemma MissingCharNotContained(t: string, p: string, c: char)
    requires c in p && c !in t
    ensures !Contains(t, p)
  {
    var k :| 0 <= k < |p| && p[k] == c;
    forall i | 0 <= i && i + |p| <= |t| ensures !OccursAt(t, p, i) {
      assert t[i..i + |p|][k] == t[i + k];
    }
    ContainsIff(t, p);
  }

  /**
   * `a + b` contains `p` only inside `a`, inside `b`, or across the seam;
   * the seam is ruled out when no split of `p` ends `a` with its head and
   * starts `b` with its tail.
   */
  lemma ConcatNotContains(a: string, b: string, p: string)
    requires !Contains(a, p) && !Contains(b, p)
    requires forall k :: 0 < k < |p| ==> !(EndsWith(a, p[..k]) && StartsWith(b, p[k..]))
    ensures !Contains(a + b, p)
  {
    ContainsIff(a, p);
    ContainsIff(b, p);
    forall i | OccursAt(a + b, p, i) ensures false {
      if i + |p| <= |a| {
        OccursInLeft(a, b, p, i);
      } else if i >= |a| {
        OccursInRight(a, b, p, i);
      } else {
        OccursAcross(a, b, p, i);
      }
    }
    ContainsIff(a + b, p);
  }

  lemma OccursInLeft(a: string, b: string, p: string, i: nat)
    requires OccursAt(a + b, p, i) && i + |p| <= |a|
    ensures OccursAt(a, p, i)
  {
    assert (a + b)[i..i + |p|] == a[i..i + |p|];
  }

  lemma OccursInRight(a: string, b: string, p: string, i: nat)
    requires OccursAt(a + b, p, i) && i >= |a|
    ensures OccursAt(b, p, i - |a|)
  {
    assert (a + b)[i..i + |p|] == b[i - |a|..i - |a| + |p|];
  }

  lemma OccursAcross(a: string, b: string, p: string, i: nat)
    requires OccursAt(a + b, p, i) && i < |a| < i + |p|
    ensures EndsWith(a, p[..|a| - i]) && StartsWith(b, p[|a| - i..])
  {
    var s := a + b;
    var k := |a| - i;
    assert s[i..i + |p|][k..] == b[..|p| - k];
    assert s[i..i + |p|][..k] == a[|a| - k..];
  }

  /** A text without `q` has nothing in it that contains `q`. */
  lemma NotContainsWider(s: string, p: string, q: string, j: nat)
    requires !Contains(s, q) && OccursAt(p, q, j)
    ensures !Contains(s, p)
  {
    ContainsIff(s, q);
    forall i | 0 <= i && i + |p| <= |s| ensures !OccursAt(s, p, i) {
      assert !OccursAt(s, q, i + j);
      SliceOfSlice(s, i, i + |p|, j, j + |q|);
    }
    ContainsIff(s, p);
  }

  /** `strip()` keeps an infix, so it cannot create an occurrence of `p`. */
  lemma StripNotContains(s: string, p: string)
    requires !Contains(s, p)
    ensures !Contains(Strip(s), p)
  {
    var a := LeadSpace(s);
    StripChars(s);
    assert Strip(s) == s[a..a + |Strip(s)|];
    NotContainsInfix(s, a, a + |Strip(s)|, p);
  }
}
