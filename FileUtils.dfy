/**
 * Filename helpers of the download engine: the reserved-character and
 * white-space clean-up, Node's posix `path.basename`/`path.extname`,
 * keeping the original extension under a custom name, and the name taken
 * from a URL.
 */
module FileUtils {
  import opened Js
  import opened Wrappers

  /** The characters the clean-up replaces: `< > : " / \ | ? *`. */
  predicate IsReserved(c: char) {
    || c == '<' || c == '>' || c == ':' || c == '"' || c == '/'
    || c == '\\' || c == '|' || c == '?' || c == '*'
  }

  predicate NoReserved(s: string) {
    forall i :: 0 <= i < |s| ==> !IsReserved(s[i])
  }

  /** A reserved character becomes `_`; any other is kept. */
  function ReplaceChar(c: char): (d: char)
    ensures !IsReserved(d)
    ensures IsSpace(d) <==> IsSpace(c)
  {
    if IsReserved(c) then '_' else c
  }

  /** The first step of the clean-up: each reserved character becomes `_`. */
  function ReplaceReserved(s: string): (r: string)
    ensures |r| == |s| && NoReserved(r)
    ensures forall i :: 0 <= i < |s| ==> r[i] == ReplaceChar(s[i])
  {
    if s == [] then [] else [ReplaceChar(s[0])] + ReplaceReserved(s[1..])
  }

  /** The characters of `s` that are not white space, in order. */
  function Visible(s: string): string {
    if s == [] then [] else (if IsSpace(s[0]) then [] else [s[0]]) + Visible(s[1..])
  }

  lemma {:induction false} VisibleConcat(a: string, b: string)
    ensures Visible(a + b) == Visible(a) + Visible(b)
  {
    if a == [] {
      assert a + b == b;
    } else {
      assert (a + b)[0] == a[0] && (a + b)[1..] == a[1..] + b;
      VisibleConcat(a[1..], b);
    }
  }

  /** Removes the leading white space, as the first half of `trim()`. */
  function TrimStart(s: string): (r: string)
    ensures |r| <= |s| && r == s[|s| - |r|..]
    ensures r == [] || !IsSpace(r[0])
    ensures forall i :: 0 <= i < |s| - |r| ==> IsSpace(s[i])
  {
    if s != [] && IsSpace(s[0]) then TrimStart(s[1..]) else s
  }

  /** Removes the trailing white space, as the second half of `trim()`. */
  function TrimEnd(s: string): (r: string)
    ensures |r| <= |s| && r == s[..|r|]
    ensures r == [] || !IsSpace(r[|r| - 1])
    ensures forall i :: |r| <= i < |s| ==> IsSpace(s[i])
  {
    if s != [] && IsSpace(s[|s| - 1]) then TrimEnd(s[..|s| - 1]) else s
  }

  /** `String.prototype.trim` */
  function Trim(s: string): (r: string)
    ensures r == [] || (!IsSpace(r[0]) && !IsSpace(r[|r| - 1]))
  {
    TrimEnd(TrimStart(s))
  }

  /** No white space but single plain spaces. */
  predicate Collapsed(s: string) {
    && (forall i :: 0 <= i < |s| && IsSpace(s[i]) ==> s[i] == ' ')
    && (forall i, j :: 0 <= i < |s| && 0 <= j < |s| && j == i + 1 ==> !(s[i] == ' ' && s[j] == ' '))
  }

  /** Every slice of a string without reserved characters or white-space runs has none either. */
  lemma SliceKeeps(s: string, r: string, lo: int)
    requires 0 <= lo && lo + |r| <= |s| && r == s[lo..lo + |r|]
    ensures NoReserved(s) ==> NoReserved(r)
    ensures Collapsed(s) ==> Collapsed(r)
  {
    assert forall i :: 0 <= i < |r| ==> r[i] == s[lo + i];
  }

  /** Dropping white space at either end loses no visible character. */
  lemma {:induction false} TrimStartVisible(s: string)
    ensures Visible(TrimStart(s)) == Visible(s)
  {
    if s != [] && IsSpace(s[0]) {
      TrimStartVisible(s[1..]);
    }
  }

  lemma {:induction false} TrimEndVisible(s: string)
    ensures Visible(TrimEnd(s)) == Visible(s)
  {
    if s != [] && IsSpace(s[|s| - 1]) {
      var p := s[..|s| - 1];
      TrimEndVisible(p);
      assert s == p + [s[|s| - 1]];
      VisibleConcat(p, [s[|s| - 1]]);
      assert Visible([s[|s| - 1]]) == [];
    }
  }

  /** ... and keeps the clean-up's other properties. */
  lemma TrimStartKeeps(s: string)
    ensures Visible(TrimStart(s)) == Visible(s)
    ensures NoReserved(s) ==> NoReserved(TrimStart(s))
    ensures Collapsed(s) ==> Collapsed(TrimStart(s))
  {
    TrimStartVisible(s);
    var t := TrimStart(s);
    var lo := |s| - |t|;
    assert t == s[lo..lo + |t|] by {
      assert lo + |t| == |s|;
    }
    SliceKeeps(s, t, lo);
  }

  lemma TrimEndKeeps(s: string)
    ensures Visible(TrimEnd(s)) == Visible(s)
    ensures NoReserved(s) ==> NoReserved(TrimEnd(s))
    ensures Collapsed(s) ==> Collapsed(TrimEnd(s))
  {
    TrimEndVisible(s);
    SliceKeeps(s, TrimEnd(s), 0);
  }

  lemma TrimKeeps(s: string)
    ensures Visible(Trim(s)) == Visible(s)
    ensures NoReserved(s) ==> NoReserved(Trim(s))
    ensures Collapsed(s) ==> Collapsed(Trim(s))
  {
    TrimStartKeeps(s);
    TrimEndKeeps(TrimStart(s));
  }

  /** `replace(/\s+/g, ' ')`: every maximal run of white space becomes one space. */
  function CollapseWhitespace(s: string): (r: string)
    ensures |s| > 0 ==> |r| > 0 && r[0] == (if IsSpace(s[0]) then ' ' else s[0])
    decreases |s|
  {
    if s == [] then []
    else if IsSpace(s[0]) then
      var t := TrimStart(s);
      assert |t| < |s|;
      [' '] + CollapseWhitespace(t)
    else
      [s[0]] + CollapseWhitespace(s[1..])
  }

  /** The collapse leaves no run of white space and no white space but plain spaces. */
  lemma {:induction false} CollapseIsCollapsed(s: string)
    ensures Collapsed(CollapseWhitespace(s))
    decreases |s|
  {
    if s != [] {
      var r := CollapseWhitespace(s);
      var rest := if IsSpace(s[0]) then TrimStart(s) else s[1..];
      CollapseIsCollapsed(rest);
      var cr := CollapseWhitespace(rest);
      assert r == [r[0]] + cr;
      assert forall i :: 1 <= i < |r| ==> r[i] == cr[i - 1];
      assert IsSpace(s[0]) && cr != [] ==> cr[0] != ' ' by {
        if IsSpace(s[0]) && cr != [] {
          assert rest != [] && !IsSpace(rest[0]);
        }
      }
    }
  }

  /** The collapse loses no visible character ... */
  lemma {:induction false} CollapseVisible(s: string)
    ensures Visible(CollapseWhitespace(s)) == Visible(s)
    decreases |s|
  {
    if s != [] {
      var r := CollapseWhitespace(s);
      if IsSpace(s[0]) {
        var t := TrimStart(s);
        TrimStartVisible(s);
        CollapseVisible(t);
        assert r[1..] == CollapseWhitespace(t);
      } else {
        CollapseVisible(s[1..]);
        assert r[1..] == CollapseWhitespace(s[1..]);
      }
    }
  }

  /** ... and adds no reserved one. */
  lemma {:induction false} CollapseNoReserved(s: string)
    requires NoReserved(s)
    ensures NoReserved(CollapseWhitespace(s))
    decreases |s|
  {
    if s != [] {
      var r := CollapseWhitespace(s);
      var rest := if IsSpace(s[0]) then TrimStart(s) else s[1..];
      SliceKeeps(s, rest, |s| - |rest|);
      CollapseNoReserved(rest);
      assert r[1..] == CollapseWhitespace(rest);
      assert forall i :: 1 <= i < |r| ==> r[i] == r[1..][i - 1];
    }
  }

  /** What the clean-up leaves: no reserved character, no white space but
      single plain spaces, and none at either end. */
  predicate Clean(s: string) {
    && NoReserved(s)
    && Collapsed(s)
    && (s == [] || (!IsSpace(s[0]) && !IsSpace(s[|s| - 1])))
  }

  /** Characters that are neither white space nor reserved. */
  predicate Plain(m: string) {
    forall i :: 0 <= i < |m| ==> !IsSpace(m[i]) && !IsReserved(m[i])
  }

  /** Inserting plain characters anywhere into a clean name keeps it clean. */
  lemma InsertClean(s: string, n: int, m: string)
    requires Clean(s) && 0 <= n <= |s| && m != [] && Plain(m)
    ensures Clean(InsertAt(s, n, m))
  {
    var r := InsertAt(s, n, m);
    InsertAtIndex(s, n, m);
    forall i, j | 0 <= i < |r| && 0 <= j < |r| && j == i + 1 ensures !(r[i] == ' ' && r[j] == ' ') {
      if j < n {
        assert r[i] == s[i] && r[j] == s[j];
      } else if j == n {
        assert r[j] == m[0];
      } else if j >= n + |m| + 1 {
        assert r[i] == s[i - |m|] && r[j] == s[j - |m|];
      }
    }
    assert !IsSpace(r[0]) by {
      if n == 0 { assert r[0] == m[0]; }
    }
    assert !IsSpace(r[|r| - 1]) by {
      if n == |s| { assert r[|r| - 1] == m[|m| - 1]; }
    }
  }

  lemma {:induction false} VisibleOfReplaced(s: string)
    ensures Visible(ReplaceReserved(s)) == ReplaceReserved(Visible(s))
  {
    if s != [] {
      VisibleOfReplaced(s[1..]);
      var r := ReplaceReserved(s);
      assert r[0] == ReplaceChar(s[0]) && r[1..] == ReplaceReserved(s[1..]);
      var v := Visible(s[1..]);
      if !IsSpace(s[0]) {
        var w := [s[0]] + v;
        assert w[0] == s[0] && w[1..] == v;
      }
    }
  }

  /** `sanitizeFilename`: reserved characters replaced, white-space runs collapsed, then trimmed. */
  function SanitizeFilename(filename: string): string {
    Trim(CollapseWhitespace(ReplaceReserved(filename)))
  }

  /**
   * The result of `sanitizeFilename` is clean, and its non-white-space
   * characters are exactly the input's, in order, each reserved one turned into `_`.
   */
  lemma SanitizedIsClean(filename: string)
    ensures Clean(SanitizeFilename(filename))
    ensures Visible(SanitizeFilename(filename)) == ReplaceReserved(Visible(filename))
  {
    var replaced := ReplaceReserved(filename);
    var collapsed := CollapseWhitespace(replaced);
    VisibleOfReplaced(filename);
    CollapseIsCollapsed(replaced);
    CollapseVisible(replaced);
    CollapseNoReserved(replaced);
    TrimKeeps(collapsed);
  }

  /** A clean name is left as it is. */
  lemma {:induction false} CleanIsFixed(s: string)
    requires Clean(s)
    ensures SanitizeFilename(s) == s
  {
    assert ReplaceReserved(s) == s;
    CollapsedIsFixed(s);
    assert TrimStart(s) == s;
    assert TrimEnd(s) == s;
  }

  lemma {:induction false} CollapsedIsFixed(s: string)
    requires Collapsed(s) && (s == [] || !IsSpace(s[0]) || |s| == 1 || !IsSpace(s[1]))
    ensures CollapseWhitespace(s) == s
  {
    if s != [] {
      if IsSpace(s[0]) {
        assert s[0] == ' ';
        assert TrimStart(s) == s[1..] by {
          if |s| > 1 {
            assert TrimStart(s) == TrimStart(s[1..]);
          }
        }
      }
      assert Collapsed(s[1..]);
      if |s| > 1 && IsSpace(s[1]) {
        assert s[1] == ' ';
        assert !IsSpace(s[0]);
        if |s| > 2 {
          assert !(s[1] == ' ' && s[2] == ' ');
          assert s[2] != ' ';
        }
      }
      CollapsedIsFixed(s[1..]);
    }
  }

  /** Cleaning twice is cleaning once. */
  lemma SanitizeIdempotent(s: string)
    ensures SanitizeFilename(SanitizeFilename(s)) == SanitizeFilename(s)
  {
    SanitizedIsClean(s);
    CleanIsFixed(SanitizeFilename(s));
  }

  // ---- the clean-up as words joined by spaces ---------------------------------

  predicate NoSpace(w: string) {
    forall i :: 0 <= i < |w| ==> !IsSpace(w[i])
  }

  /** The longest prefix without white space. */
  function Word(s: string): (w: string)
    ensures |w| <= |s| && w == s[..|w|] && NoSpace(w)
    ensures |w| < |s| ==> IsSpace(s[|w|])
    ensures s != [] && !IsSpace(s[0]) ==> w != []
  {
    if s == [] || IsSpace(s[0]) then [] else [s[0]] + Word(s[1..])
  }

  /** The maximal runs of non-white-space characters, in order. */
  function Words(s: string): (ws: seq<string>)
    ensures forall k :: 0 <= k < |ws| ==> ws[k] != [] && NoSpace(ws[k])
    decreases |s|
  {
    if s == [] then []
    else if IsSpace(s[0]) then Words(s[1..])
    else
      var w := Word(s);
      [w] + Words(s[|w|..])
  }

  /** The words joined by single plain spaces. */
  function JoinWords(ws: seq<string>): string {
    if ws == [] then "" else if |ws| == 1 then ws[0] else ws[0] + " " + JoinWords(ws[1..])
  }

  lemma {:induction false} WordsOfSpaces(b: string)
    requires forall i :: 0 <= i < |b| ==> IsSpace(b[i])
    ensures Words(b) == []
  {
    if b != [] {
      WordsOfSpaces(b[1..]);
    }
  }

  /** A word followed by white space (or nothing) is read as that word. */
  lemma {:induction false} WordThenSpace(w: string, u: string)
    requires NoSpace(w) && (u == [] || IsSpace(u[0]))
    ensures Word(w + u) == w
  {
    if w != [] {
      assert (w + u)[1..] == w[1..] + u;
      WordThenSpace(w[1..], u);
    } else {
      assert w + u == u;
    }
  }

  lemma WordsSplit(w: string, u: string)
    requires w != [] && NoSpace(w) && (u == [] || IsSpace(u[0]))
    ensures Words(w + u) == [w] + Words(u)
  {
    WordThenSpace(w, u);
    assert (w + u)[|w|..] == u;
  }

  /** White space appended at the end adds no word. */
  lemma {:induction false} WordsAppendSpaces(a: string, b: string)
    requires forall i :: 0 <= i < |b| ==> IsSpace(b[i])
    ensures Words(a + b) == Words(a)
    decreases |a|
  {
    if a == [] {
      assert a + b == b;
      WordsOfSpaces(b);
    } else if IsSpace(a[0]) {
      assert (a + b)[1..] == a[1..] + b;
      WordsAppendSpaces(a[1..], b);
    } else {
      var w := Word(a);
      var rest := a[|w|..];
      assert a == w + rest;
      assert a + b == w + (rest + b);
      WordsSplit(w, rest + b);
      WordsSplit(w, rest);
      WordsAppendSpaces(rest, b);
    }
  }

  lemma {:induction false} WordsOfTrimStart(s: string)
    ensures Words(TrimStart(s)) == Words(s)
  {
    if s != [] && IsSpace(s[0]) {
      WordsOfTrimStart(s[1..]);
    }
  }

  lemma WordsOfTrimEnd(t: string)
    ensures Words(TrimEnd(t)) == Words(t)
  {
    var e := TrimEnd(t);
    var tail := t[|e|..];
    assert forall i :: 0 <= i < |tail| ==> IsSpace(tail[i]) by {
      forall i | 0 <= i < |tail| ensures IsSpace(tail[i]) {
        assert tail[i] == t[|e| + i];
      }
    }
    assert t == e + tail;
    WordsAppendSpaces(e, tail);
  }

  lemma WordsOfTrim(s: string)
    ensures Words(Trim(s)) == Words(s)
  {
    WordsOfTrimStart(s);
    WordsOfTrimEnd(TrimStart(s));
  }

  /** The collapse passes a word through unchanged. */
  lemma {:induction false} CollapseWordPrefix(w: string, rest: string)
    requires NoSpace(w)
    ensures CollapseWhitespace(w + rest) == w + CollapseWhitespace(rest)
  {
    if w != [] {
      assert (w + rest)[1..] == w[1..] + rest;
      CollapseWordPrefix(w[1..], rest);
    } else {
      assert w + rest == rest;
    }
  }

  /** The collapse keeps the words. */
  lemma {:induction false} WordsOfCollapse(s: string)
    ensures Words(CollapseWhitespace(s)) == Words(s)
    decreases |s|
  {
    if s != [] {
      if IsSpace(s[0]) {
        var t := TrimStart(s);
        var r := CollapseWhitespace(s);
        assert r[1..] == CollapseWhitespace(t);
        WordsOfCollapse(t);
        WordsOfTrimStart(s);
      } else {
        var w := Word(s);
        var rest := s[|w|..];
        assert s == w + rest;
        CollapseWordPrefix(w, rest);
        WordsSplit(w, rest);
        WordsSplit(w, CollapseWhitespace(rest));
        WordsOfCollapse(rest);
      }
    }
  }

  lemma WordsAfterSpace(w: string, rest: string)
    requires w != [] && NoSpace(w) && rest != [] && !IsSpace(rest[0])
    ensures Words(w + " " + rest) == [w] + Words(rest)
  {
    assert w + " " + rest == w + (" " + rest);
    WordsSplit(w, " " + rest);
    assert (" " + rest)[1..] == rest;
  }

  lemma JoinCons(w: string, ws: seq<string>)
    requires ws != []
    ensures JoinWords([w] + ws) == w + " " + JoinWords(ws)
  {
    assert ([w] + ws)[1..] == ws;
  }

  /** A string with single spaces only between words is its words, joined. */
  lemma {:induction false} SpacedIsJoined(c: string)
    requires Collapsed(c) && (c == [] || (!IsSpace(c[0]) && !IsSpace(c[|c| - 1])))
    ensures JoinWords(Words(c)) == c
    decreases |c|
  {
    if c != [] {
      var w := Word(c);
      var n := |w|;
      if n == |c| {
        assert c[n..] == [];
      } else {
        assert c[n] == ' ';
        assert n + 1 < |c|;
        var rest := c[n + 1..];
        assert c == w + " " + rest;
        assert !IsSpace(rest[0]) by {
          assert c[n + 1] != ' ';
        }
        SliceKeeps(c, rest, n + 1);
        SpacedIsJoined(rest);
        WordsAfterSpace(w, rest);
        JoinCons(w, Words(rest));
      }
    }
  }

  /**
   * `sanitizeFilename` in one piece: the words of the input, with each
   * reserved character turned into `_`, joined by single spaces; so white
   * space at either end goes, and every run of it inside becomes one space.
   */
  lemma SanitizeJoinsWords(filename: string)
    ensures SanitizeFilename(filename) == JoinWords(Words(ReplaceReserved(filename)))
  {
    var replaced := ReplaceReserved(filename);
    var collapsed := CollapseWhitespace(replaced);
    SanitizedIsClean(filename);
    SpacedIsJoined(SanitizeFilename(filename));
    WordsOfTrim(collapsed);
    WordsOfCollapse(replaced);
  }

  // ---- Node's posix `path` -------------------------------------------------

  /** A single path segment: no `/` in it. */
  predicate IsSegment(s: string) {
    Lacks(s, '/')
  }

  /** The position of the last `c` in `s`, or -1 when there is none. */
  function LastIndexOf(s: string, c: char): (i: int)
    ensures -1 <= i < |s|
    ensures i >= 0 ==> s[i] == c
    ensures forall j :: i < j < |s| ==> s[j] != c
  {
    if s == [] then -1
    else if s[|s| - 1] == c then |s| - 1
    else LastIndexOf(s[..|s| - 1], c)
  }

  function StripTrailingSlashes(p: string): (r: string)
    ensures |r| <= |p| && r == p[..|r|]
    ensures r == [] || r[|r| - 1] != '/'
    ensures forall i :: |r| <= i < |p| ==> p[i] == '/'
  {
    if p != [] && p[|p| - 1] == '/' then StripTrailingSlashes(p[..|p| - 1]) else p
  }

  /** `path.basename(p)`: the last segment once trailing slashes are dropped. */
  function Basename(p: string): (b: string)
    ensures IsSegment(b)
    ensures IsSegment(p) ==> b == p
  {
    var q := StripTrailingSlashes(p);
    var k := LastIndexOf(q, '/') + 1;
    var b := q[k..];
    assert forall i :: 0 <= i < |b| ==> b[i] == q[k + i];
    assert IsSegment(p) ==> q == p && k == 0 by {
      if IsSegment(p) && p != [] {
        assert p[|p| - 1] != '/';
      }
    }
    b
  }

  /** The clean-up leaves no `/`, so a sanitised name is a single segment. */
  lemma NoReservedIsSegment(s: string)
    requires NoReserved(s)
    ensures IsSegment(s)
  {
    assert IsReserved('/');
  }

  /**
   * The extension of one segment: from its last `.` to its end; empty when
   * there is no `.` after the first character, and for `..`.
   */
  function SegmentExt(b: string): (e: string)
    ensures |e| <= |b| && e == b[|b| - |e|..]
    ensures e != "" ==> e[0] == '.' && |e| < |b| && Lacks(e[1..], '.')
    ensures e == "" <==> b == ".." || forall i :: 0 < i < |b| ==> b[i] != '.'
  {
    var d := LastIndexOf(b, '.');
    if d <= 0 || b == ".." then ""
    else
      var e := b[d..];
      assert forall j :: 0 <= j < |e| - 1 ==> e[1..][j] == b[d + 1 + j];
      e
  }

  /** `path.extname(p)`: the extension of the last segment. */
  function ExtName(p: string): string {
    SegmentExt(Basename(p))
  }

  /**
   * `preserveFileExtension`: without a custom name the original name is kept;
   * a custom name with its own extension is kept as it is; otherwise the
   * original's extension (possibly none) is appended to it.
   */
  function PreserveFileExtension(customFilename: Option<string>, originalFilename: string): (r: string)
    ensures !Truthy(customFilename) ==> r == originalFilename
    ensures Truthy(customFilename) && ExtName(customFilename.value) != "" ==> r == customFilename.value
    ensures Truthy(customFilename) && ExtName(customFilename.value) == "" ==>
              r == customFilename.value + ExtName(originalFilename)
  {
    if !Truthy(customFilename) then originalFilename
    else
      var custom := customFilename.value;
      var originalExt := ExtName(originalFilename);
      var customExt := ExtName(custom);
      if customExt != "" then custom
      else if originalExt != "" then custom + originalExt
      else custom
  }

  lemma {:induction false} LastIndexOfAppend(x: string, e: string, c: char)
    requires Lacks(e, c)
    ensures LastIndexOf(x + e, c) == LastIndexOf(x, c)
  {
    if e != [] {
      assert (x + e)[..|x + e| - 1] == x + e[..|e| - 1];
      LastIndexOfAppend(x, e[..|e| - 1], c);
    } else {
      assert x + e == x;
    }
  }

  /** A name that does not end in `/` has no trailing slashes to strip. */
  lemma NoTrailingSlash(x: string)
    requires x == [] || x[|x| - 1] != '/'
    ensures StripTrailingSlashes(x) == x
  {
  }

  /** Appending a slash-free `e` to a name that does not end in `/` extends its last segment. */
  lemma BasenameAppend(x: string, e: string)
    requires e != [] && IsSegment(e) && (x == [] || x[|x| - 1] != '/')
    ensures Basename(x + e) == Basename(x) + e
  {
    assert (x + e)[|x + e| - 1] == e[|e| - 1];
    NoTrailingSlash(x + e);
    NoTrailingSlash(x);
    LastIndexOfAppend(x, e, '/');
    var k := LastIndexOf(x, '/') + 1;
    assert (x + e)[k..] == x[k..] + e;
  }

  /** A name whose last `.` is the first character of a suffix `e` with no other dot. */
  lemma {:induction false} LastDotOfAppend(b: string, e: string)
    requires e != [] && e[0] == '.' && Lacks(e[1..], '.')
    ensures LastIndexOf(b + e, '.') == |b|
  {
    LastIndexOfAppend(b + [e[0]], e[1..], '.');
    assert b + e == (b + [e[0]]) + e[1..];
  }

  /** The extension of a segment `b + e`, with `e` a dotted suffix after a nonempty `b`. */
  lemma SegmentExtOfSuffix(b: string, e: string)
    requires b != [] && e != [] && e[0] == '.' && Lacks(e[1..], '.')
    requires b + e != ".."
    ensures SegmentExt(b + e) == e
  {
    LastDotOfAppend(b, e);
    assert (b + e)[|b|..] == e;
  }

  lemma ExtNameIsSegment(p: string)
    ensures IsSegment(ExtName(p))
  {
    var e := ExtName(p);
    var ob := Basename(p);
    assert forall i :: 0 <= i < |e| ==> e[i] == ob[|ob| - |e| + i];
  }

  lemma NotDotDot(b: string, e: string)
    requires b != [] && e != [] && e[0] == '.' && !(b == "." && e == ".")
    ensures b + e != ".."
  {
    if |b + e| == 2 {
      assert b == [b[0]] && e == [e[0]];
      assert (b + e)[0] == b[0];
    }
  }

  /**
   * When the custom name has no extension of its own, the result carries the
   * original's extension, unless the custom name ends in a slash (the
   * extension then starts a segment of its own) or the two make up `..`.
   */
  lemma PreservedExtension(custom: string, originalFilename: string)
    requires custom != "" && custom[|custom| - 1] != '/'
    requires ExtName(custom) == "" && ExtName(originalFilename) != ""
    requires !(Basename(custom) == "." && ExtName(originalFilename) == ".")
    ensures ExtName(PreserveFileExtension(Some(custom), originalFilename)) == ExtName(originalFilename)
  {
    var e := ExtName(originalFilename);
    ExtNameIsSegment(originalFilename);
    var r := custom + e;
    assert PreserveFileExtension(Some(custom), originalFilename) == r;
    BasenameAppend(custom, e);
    var b := Basename(custom);
    assert b != [] by {
      NoTrailingSlash(custom);
    }
    NotDotDot(b, e);
    SegmentExtOfSuffix(b, e);
  }

  /**
   * `getFilenameFromUrl`, given what `new URL(url)` made of the URL: the last
   * segment of its path, or `download` when that is empty or the URL does not
   * parse; never empty, never a path.
   */
  function GetFilenameFromUrl(parsed: UrlParse): (name: string)
    ensures name != "" && IsSegment(name)
    ensures parsed.Parsed? && Basename(parsed.url.pathname) != "" ==> name == Basename(parsed.url.pathname)
    ensures parsed.Invalid? || Basename(parsed.url.pathname) == "" ==> name == "download"
  {
    match parsed
    case Invalid(_) => "download"
    case Parsed(u) =>
      var b := Basename(u.pathname);
      if b != "" then b else "download"
  }
}
