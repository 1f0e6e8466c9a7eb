/** The handful of Python `str` operations that the query resolver relies on:
    `strip()`, `split()` (no separator), `replace(old, new)`, `startswith(p)`,
    the `in` operator and `str(n)`.  `sep.join(parts)` and `endswith(p)` are
    not called by the resolver: `join` is here only to state what `split()`
    produces, `endswith` only to state the shape of an error text.  Whitespace
    is the set Python's `str.isspace()` accepts.

    The functions carry only the facts their own termination needs; what
    each one computes is stated by the lemmas that follow it. */
module PyStr {

  /** `c.isspace()`: the characters CPython's `strip()` and `split()` remove
      or split on, that is the ASCII controls tab to carriage return and file
      to unit separator, the space, and the Unicode spaces and line and
      paragraph separators. */
  predicate IsWhitespace(c: char) {
    || c == ' '
    || '\t' <= c <= '\r'
    || '\U{001C}' <= c <= '\U{001F}'
    || c == '\U{0085}' || c == '\U{00A0}' || c == '\U{1680}'
    || '\U{2000}' <= c <= '\U{200A}'
    || c == '\U{2028}' || c == '\U{2029}' || c == '\U{202F}' || c == '\U{205F}' || c == '\U{3000}'
  }

  predicate AllWhitespace(s: string) {
    forall i :: 0 <= i < |s| ==> IsWhitespace(s[i])
  }

  predicate NoWhitespace(s: string) {
    forall i :: 0 <= i < |s| ==> !IsWhitespace(s[i])
  }

  /** Neither starts nor ends with whitespace: what `strip()` produces. */
  predicate Trimmed(s: string) {
    s == [] || (!IsWhitespace(s[0]) && !IsWhitespace(s[|s| - 1]))
  }

  /** `s.startswith(p)` */
  predicate StartsWith(s: string, p: string) {
    |p| <= |s| && s[..|p|] == p
  }

  /** `s.endswith(p)` */
  predicate EndsWith(s: string, p: string) {
    |p| <= |s| && s[|s| - |p|..] == p
  }

  /** `p in s`: some suffix of `s` starts with `p`. */
  predicate Contains(s: string, p: string)
    decreases |s|
  {
    StartsWith(s, p) || (|s| > 0 && Contains(s[1..], p))
  }

  // ---------------------------------------------------------------------
  // strip()

  /** `s.lstrip()` */
  function LStrip(s: string): (r: string)
    ensures |r| <= |s|
    ensures r == [] || !IsWhitespace(r[0])
    decreases |s|
  {
    if |s| > 0 && IsWhitespace(s[0]) then LStrip(s[1..]) else s
  }

  /** `lstrip()` removes exactly the leading whitespace: what it keeps is a
      suffix, and everything before that suffix is whitespace. */
  lemma {:induction false} LStripSpec(s: string)
    ensures var r := LStrip(s);
      r == s[|s| - |r|..] && AllWhitespace(s[..|s| - |r|])
    decreases |s|
  {
    if |s| > 0 && IsWhitespace(s[0]) {
      LStripSpec(s[1..]);
      var r := LStrip(s[1..]);
      assert s[1..][|s| - 1 - |r|..] == s[|s| - |r|..];
      assert s[..|s| - |r|] == [s[0]] + s[1..][..|s| - 1 - |r|];
    }
  }

  /** `s.rstrip()` */
  function RStrip(s: string): (r: string)
    ensures |r| <= |s|
    decreases |s|
  {
    if |s| > 0 && IsWhitespace(s[|s| - 1]) then RStrip(s[..|s| - 1]) else s
  }

  /** `rstrip()` removes exactly the trailing whitespace. */
  lemma {:induction false} RStripSpec(s: string)
    ensures var r := RStrip(s);
      && r == s[..|r|]
      && (r == [] || !IsWhitespace(r[|r| - 1]))
      && AllWhitespace(s[|r|..])
    decreases |s|
  {
    if |s| > 0 && IsWhitespace(s[|s| - 1]) {
      var t := s[..|s| - 1];
      RStripSpec(t);
      var r := RStrip(t);
      assert t[..|r|] == s[..|r|];
      assert forall i :: 0 <= i < |s| - 1 - |r| ==> s[|r|..][i] == t[|r|..][i];
    }
  }

  /** `s.strip()` */
  function Strip(s: string): (r: string)
  {
    RStrip(LStrip(s))
  }

  /** `strip()` leaves a trimmed infix of `s`, starting where `lstrip()` cut,
      and drops only whitespace on either side of it. */
  lemma {:induction false} StripSpec(s: string)
    ensures var r := Strip(s); var i := |s| - |LStrip(s)|;
      && Trimmed(r)
      && i + |r| <= |s| && r == s[i..i + |r|]
      && AllWhitespace(s[..i]) && AllWhitespace(s[i + |r|..])
  {
    var l := LStrip(s);
    var r := RStrip(l);
    var i := |s| - |l|;
    LStripSpec(s);
    RStripSpec(l);
    assert r == s[i..i + |r|];
    assert s[i + |r|..] == l[|r|..];
    if r != [] {
      assert r[0] == l[0];
    }
  }

  lemma {:induction false} StripTrimmed(s: string)
    requires Trimmed(s)
    ensures Strip(s) == s
  {
    assert LStrip(s) == s;
    assert RStrip(s) == s;
  }

  /** Stripping twice is stripping once. */
  lemma {:induction false} StripIdempotent(s: string)
    ensures Strip(Strip(s)) == Strip(s)
  {
    StripSpec(s);
    StripTrimmed(Strip(s));
  }

  /** A text that does not start with whitespace keeps its first character
      through `strip()`. */
  lemma {:induction false} StripKeepsHead(s: string)
    requires s != [] && !IsWhitespace(s[0])
    ensures Strip(s) != [] && Strip(s)[0] == s[0]
  {
    assert LStrip(s) == s;
    RStripSpec(s);
  }

  // ---------------------------------------------------------------------
  // replace()

  /** `s.replace(pat, rep)`: scan left to right and replace every
      non-overlapping occurrence of `pat`. */
  function Replace(s: string, pat: string, rep: string): (r: string)
    requires pat != []
    decreases |s|
  {
    if |s| < |pat| then s
    else if s[..|pat|] == pat then rep + Replace(s[|pat|..], pat, rep)
    else [s[0]] + Replace(s[1..], pat, rep)
  }

  /** Replacing a pattern that does not occur changes nothing. */
  lemma {:induction false} ReplaceAbsent(s: string, pat: string, rep: string)
    requires pat != [] && !Contains(s, pat)
    ensures Replace(s, pat, rep) == s
    decreases |s|
  {
    if |s| >= |pat| {
      assert s[..|pat|] != pat;
      ReplaceAbsent(s[1..], pat, rep);
      assert s == [s[0]] + s[1..];
    }
  }

  /** Text in which `pat` cannot start passes through `replace` unchanged. */
  lemma {:induction false} ReplaceForeignPrefix(a: string, s: string, pat: string, rep: string)
    requires pat != [] && forall i :: 0 <= i < |a| ==> a[i] != pat[0]
    ensures Replace(a + s, pat, rep) == a + Replace(s, pat, rep)
    decreases |a|
  {
    if |a| > 0 {
      var t := a + s;
      assert t[0] == a[0];
      assert t[1..] == a[1..] + s;
      ReplaceForeignPrefix(a[1..], s, pat, rep);
      if |t| >= |pat| {
        assert t[..|pat|][0] == a[0];
      }
      assert a + Replace(s, pat, rep) == [a[0]] + (a[1..] + Replace(s, pat, rep));
    } else {
      assert a + s == s;
    }
  }

  // ---------------------------------------------------------------------
  // split() and join()

  /** The longest prefix of `s` without whitespace. */
  function TakeWord(s: string): (w: string)
    ensures |w| <= |s|
    ensures s != [] && !IsWhitespace(s[0]) ==> |w| > 0
    decreases |s|
  {
    if s == [] || IsWhitespace(s[0]) then [] else [s[0]] + TakeWord(s[1..])
  }

  /** The word is a whitespace-free prefix that stops at whitespace or at the
      end of the text. */
  lemma {:induction false} TakeWordSpec(s: string)
    ensures var w := TakeWord(s);
      && w == s[..|w|]
      && NoWhitespace(w)
      && (|w| == |s| || IsWhitespace(s[|w|]))
    decreases |s|
  {
    if s != [] && !IsWhitespace(s[0]) {
      TakeWordSpec(s[1..]);
      var w := TakeWord(s[1..]);
      assert [s[0]] + w == s[..|w| + 1];
      assert forall i :: 1 <= i < |w| + 1 ==> ([s[0]] + w)[i] == w[i - 1];
    }
  }

  lemma {:induction false} TakeWordOf(w: string, rest: string)
    requires NoWhitespace(w) && (rest == [] || IsWhitespace(rest[0]))
    ensures TakeWord(w + rest) == w
    decreases |w|
  {
    if w == [] {
      assert w + rest == rest;
    } else {
      assert (w + rest)[0] == w[0];
      assert (w + rest)[1..] == w[1..] + rest;
      assert NoWhitespace(w[1..]) by {
        assert forall i :: 0 <= i < |w| - 1 ==> w[1..][i] == w[i + 1];
      }
      TakeWordOf(w[1..], rest);
    }
  }

  /** A token `split()` can produce: non-empty and free of whitespace. */
  predicate IsToken(w: string) {
    w != [] && NoWhitespace(w)
  }

  /** `s.split()`: the maximal runs of non-whitespace characters, in order. */
  function Split(s: string): (toks: seq<string>)
    decreases |s|
  {
    var t := LStrip(s);
    if t == [] then []
    else
      var w := TakeWord(t);
      [w] + Split(t[|w|..])
  }

  /** `split()` yields no empty token and no token containing whitespace. */
  lemma {:induction false} SplitTokens(s: string)
    ensures forall k :: 0 <= k < |Split(s)| ==> IsToken(Split(s)[k])
    decreases |s|
  {
    var t := LStrip(s);
    if t != [] {
      var w := TakeWord(t);
      TakeWordSpec(t);
      SplitTokens(t[|w|..]);
      var toks := Split(t[|w|..]);
      assert Split(s) == [w] + toks;
      assert forall k :: 1 <= k < |toks| + 1 ==> ([w] + toks)[k] == toks[k - 1];
    }
  }

  /** `split()` ignores leading whitespace. */
  lemma {:induction false} SplitAfterLStrip(s: string)
    ensures Split(LStrip(s)) == Split(s)
  {
    var t := LStrip(s);
    if t != [] {
      assert LStrip(t) == t;
    }
  }

  /** A trimmed, non-empty text splits into its first word and the split of
      what follows it. */
  lemma {:induction false} SplitTrimmed(s: string)
    requires s != [] && Trimmed(s)
    ensures Split(s) == [TakeWord(s)] + Split(s[|TakeWord(s)|..])
  {
    assert LStrip(s) == s;
  }

  /** A leading token followed by whitespace (or nothing) is the first
      element of the split. */
  lemma {:induction false} SplitCons(w: string, rest: string)
    requires IsToken(w) && (rest == [] || IsWhitespace(rest[0]))
    ensures Split(w + rest) == [w] + Split(rest)
  {
    var s := w + rest;
    assert s[0] == w[0];
    assert LStrip(s) == s;
    TakeWordOf(w, rest);
    assert s[|w|..] == rest;
    if rest != [] {
      SplitAfterLStrip(rest);
    }
  }

  /** A single leading blank does not change the split. */
  lemma {:induction false} SplitLeadingSpace(x: string)
    ensures Split(" " + x) == Split(x)
  {
    var s := " " + x;
    assert IsWhitespace(s[0]);
    assert s[1..] == x;
    assert LStrip(s) == LStrip(x);
    SplitAfterLStrip(s);
    SplitAfterLStrip(x);
  }

  /** `sep.join(parts)` */
  function Join(parts: seq<string>, sep: string): (r: string)
    decreases |parts|
  {
    if |parts| == 0 then []
    else if |parts| == 1 then parts[0]
    else parts[0] + sep + Join(parts[1..], sep)
  }

  lemma {:induction false} JoinCons(w: string, toks: seq<string>, sep: string)
    requires toks != []
    ensures Join([w] + toks, sep) == w + (sep + Join(toks, sep))
  {
    assert ([w] + toks)[1..] == toks;
  }

  /** Tokens joined with single blanks split back into exactly those
      tokens: the converse of `JoinSplit`. */
  lemma {:induction false} SplitJoin(ts: seq<string>)
    requires forall k :: 0 <= k < |ts| ==> IsToken(ts[k])
    ensures Split(Join(ts, " ")) == ts
    decreases |ts|
  {
    if |ts| == 1 {
      SplitCons(ts[0], []);
      assert ts[0] + [] == ts[0];
    } else if |ts| > 1 {
      var rest := ts[1..];
      SplitJoin(rest);
      assert ts == [ts[0]] + rest;
      JoinCons(ts[0], rest, " ");
      SplitCons(ts[0], " " + Join(rest, " "));
      SplitLeadingSpace(Join(rest, " "));
    }
  }

  /** Reference definition: every maximal run of whitespace becomes one space. */
  function CollapseRuns(s: string): (r: string)
    decreases |s|
  {
    if s == [] then []
    else if IsWhitespace(s[0]) then [' '] + CollapseRuns(LStrip(s))
    else [s[0]] + CollapseRuns(s[1..])
  }

  lemma {:induction false} CollapseAfterWord(w: string, x: string)
    requires NoWhitespace(w)
    ensures CollapseRuns(w + x) == w + CollapseRuns(x)
    decreases |w|
  {
    if |w| > 0 {
      assert (w + x)[0] == w[0];
      assert (w + x)[1..] == w[1..] + x;
      assert NoWhitespace(w[1..]) by {
        assert forall i :: 0 <= i < |w| - 1 ==> w[1..][i] == w[i + 1];
      }
      CollapseAfterWord(w[1..], x);
    } else {
      assert w + x == x;
    }
  }

  /** What follows the first word of a trimmed text, with its leading
      whitespace removed, is again trimmed and is non-empty unless nothing
      followed. */
  lemma {:induction false} RestTrimmed(s: string, w: string)
    requires Trimmed(s) && |w| <= |s| && s[..|w|] == w && |w| > 0
    ensures Trimmed(LStrip(s[|w|..]))
    ensures |w| < |s| ==> LStrip(s[|w|..]) != []
  {
    var rest := s[|w|..];
    var u := LStrip(rest);
    LStripSpec(rest);
    if rest != [] {
      assert rest[|rest| - 1] == s[|s| - 1];
      if u != [] {
        assert u[|u| - 1] == rest[|rest| - 1];
      }
    }
  }

  /** Joining the tokens of a trimmed text with single spaces gives the text
      with every whitespace run collapsed to one space. */
  lemma {:induction false} JoinSplit(s: string)
    requires Trimmed(s)
    ensures Join(Split(s), " ") == CollapseRuns(s)
    decreases |s|
  {
    if s != [] {
      var w := TakeWord(s);
      var rest := s[|w|..];
      TakeWordSpec(s);
      SplitTrimmed(s);
      assert s == w + rest by { assert s == s[..|w|] + s[|w|..]; }
      CollapseAfterWord(w, rest);
      RestTrimmed(s, w);
      if rest != [] {
        var u := LStrip(rest);
        assert IsWhitespace(rest[0]);
        assert CollapseRuns(rest) == " " + CollapseRuns(u);
        SplitAfterLStrip(rest);
        JoinSplit(u);
        SplitTrimmed(u);
        JoinCons(w, Split(u), " ");
      } else {
        assert w + rest == w;
      }
    }
  }

  /** When `s` starts with a whitespace-free `p`, so does its first word. */
  lemma {:induction false} TakeWordStartsWith(s: string, p: string)
    requires StartsWith(s, p) && NoWhitespace(p)
    ensures StartsWith(TakeWord(s), p)
    decreases |p|
  {
    if |p| > 0 {
      assert s[0] == p[0];
      assert s[1..][..|p| - 1] == p[1..];
      assert NoWhitespace(p[1..]) by {
        assert forall i :: 0 <= i < |p| - 1 ==> p[1..][i] == p[i + 1];
      }
      TakeWordStartsWith(s[1..], p[1..]);
      assert TakeWord(s) == [s[0]] + TakeWord(s[1..]);
    }
  }

  /** A text starting with a whitespace-free, non-empty `p` splits into at
      least one token, and the first token starts with `p`. */
  lemma {:induction false} FirstTokenStartsWith(s: string, p: string)
    requires StartsWith(s, p) && IsToken(p)
    ensures |Split(s)| > 0 && StartsWith(Split(s)[0], p)
  {
    assert s[0] == p[0];
    assert LStrip(s) == s;
    TakeWordStartsWith(s, p);
  }

  // ---------------------------------------------------------------------
  // str(n)

  /** Python `str(n)` for a non-negative integer. */
  function NatToString(n: nat): (r: string)
    decreases n
  {
    var d := ['0' + (n % 10) as char];
    if n < 10 then d else NatToString(n / 10) + d
  }

  /** `str(n)` is a non-empty run of decimal digits. */
  lemma {:induction false} NatToStringDigits(n: nat)
    ensures |NatToString(n)| > 0
    ensures forall i :: 0 <= i < |NatToString(n)| ==> '0' <= NatToString(n)[i] <= '9'
    decreases n
  {
    if n >= 10 {
      NatToStringDigits(n / 10);
      var h := NatToString(n / 10);
      var d := ['0' + (n % 10) as char];
      assert NatToString(n) == h + d;
      assert forall i :: 0 <= i < |h| ==> (h + d)[i] == h[i];
    }
  }

  // ---------------------------------------------------------------------
  // Facts about `in`

  lemma {:induction false} ContainsOfPrefix(s: string, p: string)
    requires StartsWith(s, p)
    ensures Contains(s, p)
  {
  }

  /** `p in s` is preserved by putting text in front of `s`. */
  lemma {:induction false} ContainsAppendLeft(a: string, s: string, p: string)
    requires Contains(s, p)
    ensures Contains(a + s, p)
    decreases |a|
  {
    if |a| > 0 {
      ContainsAppendLeft(a[1..], s, p);
      assert (a + s)[1..] == a[1..] + s;
    } else {
      assert a + s == s;
    }
  }

  /** `p in s` is preserved by putting text after `s`. */
  lemma {:induction false} ContainsAppendRight(s: string, b: string, p: string)
    requires Contains(s, p)
    ensures Contains(s + b, p)
    decreases |s|
  {
    if StartsWith(s, p) {
      assert (s + b)[..|p|] == s[..|p|];
    } else {
      ContainsAppendRight(s[1..], b, p);
      assert (s + b)[1..] == s[1..] + b;
    }
  }

  /** An occurrence of `p` in a suffix of `s` is one in `s`. */
  lemma {:induction false} ContainsSuffix(s: string, k: nat, p: string)
    requires k <= |s| && Contains(s[k..], p)
    ensures Contains(s, p)
    decreases k
  {
    if k > 0 {
      assert s[1..][k - 1..] == s[k..];
      ContainsSuffix(s[1..], k - 1, p);
    }
  }

  /** `strip()` cannot create an occurrence of `p`. */
  lemma {:induction false} StripKeepsAbsence(s: string, p: string)
    requires !Contains(s, p)
    ensures !Contains(Strip(s), p)
  {
    var l := LStrip(s);
    LStripSpec(s);
    if Contains(l, p) {
      ContainsSuffix(s, |s| - |l|, p);
    }
    var r := RStrip(l);
    RStripSpec(l);
    if Contains(r, p) {
      assert l == r + l[|r|..];
      ContainsAppendRight(r, l[|r|..], p);
    }
  }

  /** When none of the characters of `a` can start `p`, an occurrence of `p`
      in `a + s` lies inside `s`. */
  lemma {:induction false} ContainsAfterForeignPrefix(a: string, s: string, p: string)
    requires p != [] && forall i :: 0 <= i < |a| ==> a[i] != p[0]
    requires Contains(a + s, p)
    ensures Contains(s, p)
    decreases |a|
  {
    if |a| > 0 {
      assert (a + s)[0] == a[0];
      assert (a + s)[1..] == a[1..] + s;
      ContainsAfterForeignPrefix(a[1..], s, p);
    } else {
      assert a + s == s;
    }
  }

  /** A pattern whose first character never occurs in a text is not in it. */
  lemma {:induction false} NoFirstCharNoContains(s: string, p: string)
    requires p != [] && forall i :: 0 <= i < |s| ==> s[i] != p[0]
    ensures !Contains(s, p)
  {
    if Contains(s, p) {
      assert s + [] == s;
      ContainsAfterForeignPrefix(s, [], p);
    }
  }

  lemma {:induction false} ShortNotContains(s: string, p: string)
    requires |s| < |p|
    ensures !Contains(s, p)
    decreases |s|
  {
    if |s| > 0 {
      ShortNotContains(s[1..], p);
    }
  }

  /** An occurrence of `p` contains an occurrence of each prefix of `p`. */
  lemma {:induction false} ContainsPrefixOfPattern(s: string, p: string, q: string)
    requires StartsWith(p, q) && Contains(s, p)
    ensures Contains(s, q)
    decreases |s|
  {
    if StartsWith(s, p) {
      assert s[..|q|] == p[..|q|];
    } else {
      ContainsPrefixOfPattern(s[1..], p, q);
    }
  }

  // ---------------------------------------------------------------------
  // Removing the three-backtick marker leaves none behind

  /** What is left after removing "```" starts with a backtick only if the
      text did. */
  lemma {:induction false} RemovalKeepsHead(s: string, pat: string)
    requires pat == "```"
    ensures var r := Replace(s, pat, "");
      (|r| >= 1 && r[0] == '`' ==> |s| >= 1 && s[0] == '`')
  {
  }

  /** ... and starts with two backticks only if the text did. */
  lemma {:induction false} RemovalKeepsHead2(s: string, pat: string)
    requires pat == "```"
    ensures var r := Replace(s, pat, "");
      (|r| >= 2 && r[..2] == "``" ==> |s| >= 2 && s[..2] == "``")
  {
    var r := Replace(s, pat, "");
    if |r| >= 2 && r[..2] == "``" && |s| >= |pat| && s[..|pat|] != pat {
      assert r == [s[0]] + Replace(s[1..], pat, "");
      RemovalKeepsHead(s[1..], pat);
    }
  }

  /** After `replace("```", "")` no three-backtick marker remains: the text
      kept in front of a removed marker never ends with a backtick, so no new
      marker is formed across the gap. */
  lemma {:induction false} RemovalLeavesNoFence(s: string, pat: string)
    requires pat == "```"
    ensures !Contains(Replace(s, pat, ""), pat)
    decreases |s|
  {
    var r := Replace(s, pat, "");
    if |s| < |pat| {
      ShortNotContains(s, pat);
    } else if s[..|pat|] == pat {
      RemovalLeavesNoFence(s[|pat|..], pat);
      assert r == Replace(s[|pat|..], pat, "");
    } else {
      var tail := Replace(s[1..], pat, "");
      RemovalLeavesNoFence(s[1..], pat);
      assert r == [s[0]] + tail && r[1..] == tail;
      RemovalKeepsHead2(s[1..], pat);
      assert StartsWith(r, pat) ==> StartsWith(tail, "``");
    }
  }
}
