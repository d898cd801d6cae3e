/** The string operations of Python that the core relies on: split, join, strip, startswith. */
module Text {

  /** The characters str.strip() and str.split() treat as whitespace. */
  predicate IsSpace(c: char) {
    c == ' ' || c == '\t' || c == '\n' || c == '\r' || c == '\U{B}' || c == '\U{C}'
  }

  predicate StartsWith(s: string, prefix: string) {
    |prefix| <= |s| && s[..|prefix|] == prefix
  }

  predicate EndsWith(s: string, suffix: string) {
    |suffix| <= |s| && s[|s| - |suffix|..] == suffix
  }

  /** True when s has no whitespace at either end, so that strip leaves it alone. */
  predicate Trimmed(s: string) {
    |s| == 0 || (!IsSpace(s[0]) && !IsSpace(s[|s| - 1]))
  }

  /** s.split(sep) for a one-character separator. */
  function Split(s: string, sep: char): (r: seq<string>)
    ensures |r| >= 1
    ensures forall i :: 0 <= i < |r| ==> sep !in r[i]
  {
    if |s| == 0 then [""]
    else
      var rest := Split(s[1..], sep);
      if s[0] == sep then [""] + rest else [[s[0]] + rest[0]] + rest[1..]
  }

  /** sep.join(parts). */
  function Join(parts: seq<string>, sep: string): string {
    if |parts| == 0 then ""
    else if |parts| == 1 then parts[0]
    else parts[0] + sep + Join(parts[1..], sep)
  }

  function StripLeft(s: string): (r: string)
    ensures |r| <= |s|
    ensures |r| == 0 || !IsSpace(r[0])
  {
    if |s| > 0 && IsSpace(s[0]) then StripLeft(s[1..]) else s
  }

  function StripRight(s: string): (r: string)
    ensures |r| <= |s| && (|r| > 0 ==> r[0] == s[0])
    ensures |r| == 0 || !IsSpace(r[|r| - 1])
  {
    if |s| > 0 && IsSpace(s[|s| - 1]) then StripRight(s[..|s| - 1]) else s
  }

  /** s.strip(): the text with surrounding whitespace removed; text without any is unchanged. */
  function Strip(s: string): (r: string)
    ensures Trimmed(r)
    ensures |r| <= |s|
    ensures Trimmed(s) ==> r == s
  {
    var l := StripLeft(s);
    var r := StripRight(l);
    assert |r| > 0 ==> r[0] == l[0];
    r
  }
  /**
   * Each line of a list stripped, as the readers do before looking at a line: the same number
   * of lines in the same order, none with whitespace at either end, and a line that had none
   * unchanged.
   */
  function StripAll(lines: seq<string>): (r: seq<string>)
    ensures |r| == |lines|
    ensures forall i :: 0 <= i < |lines| ==> r[i] == Strip(lines[i])
    ensures forall i :: 0 <= i < |r| ==> Trimmed(r[i])
    ensures forall i :: 0 <= i < |lines| && Trimmed(lines[i]) ==> r[i] == lines[i]
  {
    seq(|lines|, i requires 0 <= i < |lines| => Strip(lines[i]))
  }


  /** True when every character of g is whitespace (the empty text included). */
  predicate AllSpace(g: string) {
    forall k :: 0 <= k < |g| ==> IsSpace(g[k])
  }

  /** Stripping the left of whitespace followed by text that does not start with whitespace leaves that text. */
  lemma {:induction false} StripLeftSpaces(g: string, t: string)
    requires AllSpace(g) && (|t| == 0 || !IsSpace(t[0]))
    ensures StripLeft(g + t) == t
  {
    if |g| == 0 {
      assert g + t == t;
    } else {
      assert (g + t)[0] == g[0];
      assert (g + t)[1..] == g[1..] + t;
      StripLeftSpaces(g[1..], t);
    }
  }

  /** Stripping the right of text followed by whitespace leaves the text when it does not end in whitespace. */
  lemma {:induction false} StripRightSpaces(t: string, g: string)
    requires AllSpace(g) && (|t| == 0 || !IsSpace(t[|t| - 1]))
    ensures StripRight(t + g) == t
  {
    if |g| == 0 {
      assert t + g == t;
    } else {
      var g' := g[..|g| - 1];
      assert (t + g)[|t + g| - 1] == g[|g| - 1];
      assert (t + g)[..|t + g| - 1] == t + g';
      StripRightSpaces(t, g');
    }
  }

  /** strip() of a text between two runs of whitespace is that text, when it has none at either end. */
  lemma StripSurrounded(g1: string, t: string, g2: string)
    requires AllSpace(g1) && AllSpace(g2) && Trimmed(t)
    ensures Strip(g1 + t + g2) == t
  {
    if |t| == 0 {
      assert g1 + t + g2 == (g1 + g2) + "";
      StripLeftSpaces(g1 + g2, "");
    } else {
      assert g1 + t + g2 == g1 + (t + g2);
      assert (t + g2)[0] == t[0];
      StripLeftSpaces(g1, t + g2);
      StripRightSpaces(t, g2);
    }
  }

  /** The left strip is a suffix of s, and what it drops is whitespace. */
  lemma {:induction false} StripLeftSuffix(s: string)
    ensures StripLeft(s) == s[|s| - |StripLeft(s)|..]
    ensures AllSpace(s[..|s| - |StripLeft(s)|])
  {
    if |s| > 0 && IsSpace(s[0]) {
      var r := StripLeft(s[1..]);
      StripLeftSuffix(s[1..]);
      var k := |s| - 1 - |r|;
      assert s[1..][k..] == s[k + 1..];
      assert s[..k + 1] == [s[0]] + s[1..][..k];
    } else {
      assert s[..0] == "";
    }
  }

  /** The right strip is a prefix of s, and what it drops is whitespace. */
  lemma {:induction false} StripRightPrefix(s: string)
    ensures StripRight(s) == s[..|StripRight(s)|]
    ensures AllSpace(s[|StripRight(s)|..])
  {
    if |s| > 0 && IsSpace(s[|s| - 1]) {
      var p := s[..|s| - 1];
      var r := StripRight(p);
      StripRightPrefix(p);
      assert p[..|r|] == s[..|r|];
      assert s[|r|..] == p[|r|..] + [s[|s| - 1]];
    } else {
      assert s[|s|..] == "";
    }
  }

  /**
   * strip() keeps one slice of s and drops only whitespace around it: with i the number of
   * leading characters dropped, s is s[..i] + Strip(s) + s[i + |Strip(s)|..], both ends whitespace.
   * With StripSurrounded, this says Strip(s) is s without its surrounding whitespace.
   */
  lemma StripSlice(s: string)
    ensures var r := Strip(s); var i := |s| - |StripLeft(s)|;
      && 0 <= i <= i + |r| <= |s| && r == s[i..i + |r|]
      && AllSpace(s[..i]) && AllSpace(s[i + |r|..])
  {
    var l := StripLeft(s);
    var r := StripRight(l);
    var i := |s| - |l|;
    StripLeftSuffix(s);
    StripRightPrefix(l);
    assert r == Strip(s);
    assert l[..|r|] == s[i..i + |r|];
    assert l[|r|..] == s[i + |r|..];
  }

  /** A line read from a file keeps its line ending, and strip() removes it: "\n" and "\r\n" alike. */
  lemma StripLineEnd(t: string)
    requires Trimmed(t)
    ensures Strip(t + "\n") == t && Strip(t + "\r\n") == t
  {
    assert "" + t + "\n" == t + "\n";
    assert "" + t + "\r\n" == t + "\r\n";
    StripSurrounded("", t, "\n");
    StripSurrounded("", t, "\r\n");
  }

  /** The position of the first c in s, or |s| when there is none. */
  function IndexOf(s: string, c: char): (k: nat)
    ensures k <= |s|
    ensures c !in s[..k]
    ensures k < |s| ==> s[k] == c
  {
    if |s| == 0 then 0
    else if s[0] == c then 0
    else
      var k := IndexOf(s[1..], c);
      assert s[..k + 1] == [s[0]] + s[1..][..k];
      k + 1
  }

  /** The longest prefix of s without whitespace. */
  function Word(s: string): (w: string)
    ensures |w| <= |s| && w == s[..|w|]
    ensures forall i :: 0 <= i < |w| ==> !IsSpace(w[i])
    ensures |w| == |s| || IsSpace(s[|w|])
    ensures |s| > 0 && !IsSpace(s[0]) ==> |w| > 0
  {
    if |s| == 0 || IsSpace(s[0]) then ""
    else
      var w := Word(s[1..]);
      [s[0]] + w
  }

  /** A non-empty run of non-whitespace characters. */
  predicate IsWord(w: string) {
    |w| > 0 && forall j :: 0 <= j < |w| ==> !IsSpace(w[j])
  }

  /** s.split() with no argument: the maximal runs of non-whitespace characters. */
  function SplitWhitespace(s: string): (r: seq<string>)
    ensures forall i :: 0 <= i < |r| ==> IsWord(r[i])
    decreases |s|
  {
    if |s| == 0 then []
    else if IsSpace(s[0]) then SplitWhitespace(s[1..])
    else
      var w := Word(s);
      assert IsWord(w);
      [w] + SplitWhitespace(s[|w|..])
  }

  /** Words with the given runs between them: ws[0] + gaps[0] + ws[1] + ... + ws[|ws| - 1]. */
  function Spaced(ws: seq<string>, gaps: seq<string>): string
    requires |ws| >= 1 && |gaps| == |ws| - 1
  {
    if |ws| == 1 then ws[0] else ws[0] + gaps[0] + Spaced(ws[1..], gaps[1..])
  }

  /** split() skips leading whitespace. */
  lemma {:induction false} SplitWhitespaceSkips(g: string, s: string)
    requires AllSpace(g)
    ensures SplitWhitespace(g + s) == SplitWhitespace(s)
  {
    if |g| == 0 {
      assert g + s == s;
    } else {
      assert (g + s)[0] == g[0];
      assert (g + s)[1..] == g[1..] + s;
      SplitWhitespaceSkips(g[1..], s);
    }
  }

  /** split() takes a word that ends at whitespace or at the end of the text as its next token. */
  lemma SplitWhitespaceWord(w: string, s: string)
    requires IsWord(w) && (|s| == 0 || IsSpace(s[0]))
    ensures SplitWhitespace(w + s) == [w] + SplitWhitespace(s)
  {
    WordOf(w, s);
    assert (w + s)[0] == w[0];
    assert (w + s)[|w|..] == s;
  }

  /**
   * split() gives back the words of a text written as words separated by runs of whitespace,
   * whatever the length of each run.
   */
  lemma {:induction false} SplitWhitespaceSpaced(ws: seq<string>, gaps: seq<string>)
    requires |ws| >= 1 && |gaps| == |ws| - 1
    requires forall i :: 0 <= i < |ws| ==> IsWord(ws[i])
    requires forall i :: 0 <= i < |gaps| ==> |gaps[i]| > 0 && AllSpace(gaps[i])
    ensures SplitWhitespace(Spaced(ws, gaps)) == ws
  {
    if |ws| == 1 {
      SplitWhitespaceWord(ws[0], "");
      assert ws[0] + "" == ws[0];
    } else {
      var rest := Spaced(ws[1..], gaps[1..]);
      assert Spaced(ws, gaps) == ws[0] + (gaps[0] + rest);
      assert (gaps[0] + rest)[0] == gaps[0][0];
      SplitWhitespaceWord(ws[0], gaps[0] + rest);
      SplitWhitespaceSkips(gaps[0], rest);
      SplitWhitespaceSpaced(ws[1..], gaps[1..]);
      assert ws == [ws[0]] + ws[1..];
    }
  }

  /** Words with runs of whitespace between them start with the first word and have no whitespace at either end. */
  lemma {:induction false} SpacedEnds(ws: seq<string>, gaps: seq<string>)
    requires |ws| >= 1 && |gaps| == |ws| - 1
    requires forall i :: 0 <= i < |ws| ==> IsWord(ws[i])
    ensures StartsWith(Spaced(ws, gaps), ws[0])
    ensures Trimmed(Spaced(ws, gaps))
  {
    var s := Spaced(ws, gaps);
    if |ws| > 1 {
      var rest := Spaced(ws[1..], gaps[1..]);
      SpacedEnds(ws[1..], gaps[1..]);
      assert s == ws[0] + (gaps[0] + rest);
      assert s[..|ws[0]|] == ws[0];
      assert s[|s| - 1] == rest[|rest| - 1];
    } else {
      assert s[..|ws[0]|] == ws[0];
    }
  }

  lemma JoinCons(c: char, x: string, xs: seq<string>, sep: string)
    ensures Join([[c] + x] + xs, sep) == [c] + Join([x] + xs, sep)
  {
    if |xs| > 0 {
      assert ([[c] + x] + xs)[1..] == xs;
      assert ([x] + xs)[1..] == xs;
    }
  }

  /** Joining the pieces of a split with the same separator gives the text back. */
  lemma {:induction false} JoinSplit(s: string, sep: char)
    ensures Join(Split(s, sep), [sep]) == s
  {
    if |s| > 0 {
      var rest := Split(s[1..], sep);
      JoinSplit(s[1..], sep);
      if s[0] == sep {
        assert ([""] + rest)[1..] == rest;
        assert Join([""] + rest, [sep]) == "" + [sep] + Join(rest, [sep]);
      } else {
        assert rest == [rest[0]] + rest[1..];
        JoinCons(s[0], rest[0], rest[1..], [sep]);
      }
    }
  }

  /** Splitting a text that starts with a piece free of the separator keeps that piece whole. */
  lemma {:induction false} SplitPrefix(a: string, b: string, sep: char)
    requires sep !in a
    ensures Split(a + b, sep) == [a + Split(b, sep)[0]] + Split(b, sep)[1..]
  {
    if |a| > 0 {
      assert (a + b)[1..] == a[1..] + b;
      assert (a + b)[0] == a[0];
      SplitPrefix(a[1..], b, sep);
      assert [a[0]] + (a[1..] + Split(b, sep)[0]) == a + Split(b, sep)[0];
    } else {
      var parts := Split(b, sep);
      assert a + b == b;
      assert parts == [parts[0]] + parts[1..];
      assert a + parts[0] == parts[0];
    }
  }

  /** Splitting a join gives the pieces back when none of them holds the separator. */
  lemma {:induction false} SplitJoin(parts: seq<string>, sep: char)
    requires |parts| >= 1
    requires forall i :: 0 <= i < |parts| ==> sep !in parts[i]
    ensures Split(Join(parts, [sep]), sep) == parts
  {
    if |parts| == 1 {
      SplitPrefix(parts[0], "", sep);
      assert parts[0] + "" == parts[0];
    } else {
      var rest := Join(parts[1..], [sep]);
      SplitJoin(parts[1..], sep);
      assert Join(parts, [sep]) == parts[0] + ([sep] + rest);
      SplitPrefix(parts[0], [sep] + rest, sep);
      assert ([sep] + rest)[1..] == rest;
      assert parts[0] + "" == parts[0];
    }
  }

  /** Joining a piece in front of at least one other puts the separator between them. */
  lemma JoinPrepend(first: string, rest: seq<string>, sep: string)
    requires |rest| > 0
    ensures Join([first] + rest, sep) == first + sep + Join(rest, sep)
  {
    assert ([first] + rest)[1..] == rest;
  }

  lemma StartsWithAppend(prefix: string, rest: string)
    ensures StartsWith(prefix + rest, prefix)
  {
    assert (prefix + rest)[..|prefix|] == prefix;
  }

  /** A text whose first character differs from a prefix's does not start with it. */
  lemma NotStartsWith(s: string, prefix: string)
    requires |s| > 0 && |prefix| > 0 && s[0] != prefix[0]
    ensures !StartsWith(s, prefix)
  {
    assert |prefix| <= |s| ==> s[..|prefix|][0] == s[0];
  }

  /** A join starts with its first piece. */
  lemma JoinFirst(parts: seq<string>, sep: string)
    requires |parts| >= 1
    ensures StartsWith(Join(parts, sep), parts[0])
  {
    if |parts| > 1 {
      assert Join(parts, sep) == parts[0] + (sep + Join(parts[1..], sep));
    }
  }

  /** A word followed by whitespace or by nothing is read whole. */
  lemma {:induction false} WordOf(w: string, rest: string)
    requires IsWord(w) && (|rest| == 0 || IsSpace(rest[0]))
    ensures Word(w + rest) == w
  {
    assert (w + rest)[1..] == w[1..] + rest;
    if |w| > 1 {
      WordOf(w[1..], rest);
    }
  }

  /** Splitting words joined by single spaces gives the words back. */
  lemma {:induction false} SplitWhitespaceJoin(ws: seq<string>)
    requires forall i :: 0 <= i < |ws| ==> IsWord(ws[i])
    ensures SplitWhitespace(Join(ws, " ")) == ws
  {
    if |ws| == 1 {
      WordOf(ws[0], "");
      assert ws[0] + "" == ws[0];
      assert ws[0][|ws[0]|..] == "";
    } else if |ws| > 1 {
      var rest := Join(ws[1..], " ");
      assert ws == [ws[0]] + ws[1..];
      JoinPrepend(ws[0], ws[1..], " ");
      var line := ws[0] + (" " + rest);
      assert Join(ws, " ") == line;
      WordOf(ws[0], " " + rest);
      assert line[|ws[0]|..] == " " + rest;
      assert (" " + rest)[1..] == rest;
      SplitWhitespaceJoin(ws[1..]);
    }
  }
}
