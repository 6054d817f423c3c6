/**
 The string operations of the plugin: Python's `str.strip()`, the substitution
 `re.sub('\n\s+', '\n', s)` applied to docstrings, `sep.join(parts)` and, as
 the inverse that states what a join preserves, `s.split(sep)`.
 */
module Text {

  /** Space, tab, newline, carriage return, form feed and vertical tab: the
      usual whitespace characters. Python's `str.strip()` and `\s` match more
      (the separators U+001C to U+001F and Unicode spaces). */
  predicate IsSpace(c: char) {
    c == ' ' || c == '\t' || c == '\n' || c == '\r' || c == '\U{C}' || c == '\U{B}'
  }

  predicate AllSpace(s: string) {
    forall i :: 0 <= i < |s| ==> IsSpace(s[i])
  }

  /** The non-whitespace characters of `s`, in order: what a reader sees. */
  function Visible(s: string): string {
    if s == [] then []
    else (if IsSpace(s[0]) then [] else [s[0]]) + Visible(s[1..])
  }

  lemma {:induction false} VisibleConcat(a: string, b: string)
    ensures Visible(a + b) == Visible(a) + Visible(b)
  {
    if a == [] {
      assert a + b == b;
    } else {
      assert (a + b)[0] == a[0];
      assert (a + b)[1..] == a[1..] + b;
      VisibleConcat(a[1..], b);
    }
  }

  /** No whitespace at either end. */
  predicate Stripped(s: string) {
    s == [] || (!IsSpace(s[0]) && !IsSpace(s[|s| - 1]))
  }

  /** Python's `s.lstrip()`: never longer than `s`. */
  function TrimStart(s: string): (r: string)
    ensures |r| <= |s|
    decreases |s|
  {
    if s != [] && IsSpace(s[0]) then TrimStart(s[1..]) else s
  }

  /** `TrimStart` drops exactly the leading whitespace: what it keeps is a
      suffix starting with a visible character, what it drops is whitespace. */
  lemma {:induction false} TrimStartShape(s: string)
    ensures var r := TrimStart(s);
      r == s[|s| - |r|..] && AllSpace(s[..|s| - |r|]) &&
      (r != [] ==> !IsSpace(r[0])) && Visible(r) == Visible(s)
    decreases |s|
  {
    if s != [] && IsSpace(s[0]) {
      var r := TrimStart(s[1..]);
      TrimStartShape(s[1..]);
      assert s[..|s| - |r|] == [s[0]] + s[1..][..|s| - 1 - |r|];
      VisibleCons(s[0], s[1..]);
      assert s == [s[0]] + s[1..];
    }
  }

  /** Python's `s.rstrip()`: never longer than `s`. */
  function TrimEnd(s: string): (r: string)
    ensures |r| <= |s|
    decreases |s|
  {
    if s != [] && IsSpace(s[|s| - 1]) then TrimEnd(s[..|s| - 1]) else s
  }

  /** `TrimEnd` drops exactly the trailing whitespace. */
  lemma {:induction false} TrimEndShape(s: string)
    ensures var r := TrimEnd(s);
      r == s[..|r|] && AllSpace(s[|r|..]) &&
      (r != [] ==> !IsSpace(r[|r| - 1])) && Visible(r) == Visible(s)
    decreases |s|
  {
    if s != [] && IsSpace(s[|s| - 1]) {
      var init := s[..|s| - 1];
      var r := TrimEnd(init);
      TrimEndShape(init);
      assert s == init + [s[|s| - 1]];
      VisibleConcat(init, [s[|s| - 1]]);
      VisibleCons(s[|s| - 1], []);
      assert s[|r|..] == init[|r|..] + [s[|s| - 1]];
    }
  }

  /** `r` sits in `s` at index `k` with only whitespace around it. */
  predicate Margins(s: string, k: nat, r: string) {
    k + |r| <= |s| && r == s[k..k + |r|] && AllSpace(s[..k]) && AllSpace(s[k + |r|..])
  }

  /** Python's `s.strip()`. */
  function Strip(s: string): string {
    TrimEnd(TrimStart(s))
  }

  /** `Strip` removes the whitespace margins and nothing else. */
  lemma StripShape(s: string)
    ensures var r := Strip(s);
      Stripped(r) && Visible(r) == Visible(s) && Margins(s, |s| - |TrimStart(s)|, r)
  {
    var t := TrimStart(s);
    var r := TrimEnd(t);
    var k := |s| - |t|;
    TrimStartShape(s);
    TrimEndShape(t);
    assert r != [] ==> r[0] == t[0];
    assert t[|r|..] == s[k + |r|..];
    assert r == s[k..k + |r|];
  }

  lemma StripOfStripped(s: string)
    requires Stripped(s)
    ensures Strip(s) == s
  {
    assert TrimStart(s) == s;
  }

  /** No newline is directly followed by whitespace. */
  predicate NoIndent(s: string) {
    forall i :: 0 <= i < |s| - 1 && s[i] == '\n' ==> !IsSpace(s[i + 1])
  }

  /** `re.sub('\n\s+', '\n', s)`: every newline followed by a run of whitespace
      (which may itself hold newlines) becomes a bare newline. The run is
      matched greedily, so it is exactly what `TrimStart` drops. */
  function CollapseIndent(s: string): string
    decreases |s|
  {
    if s == [] then []
    else if s[0] == '\n' then ['\n'] + CollapseIndent(TrimStart(s[1..]))
    else [s[0]] + CollapseIndent(s[1..])
  }

  /** After the substitution no newline is followed by whitespace, the visible
      characters are those of `s`, and a visible first character stays first. */
  lemma {:induction false} CollapseShape(s: string)
    ensures var r := CollapseIndent(s);
      NoIndent(r) && Visible(r) == Visible(s) &&
      (s != [] && !IsSpace(s[0]) ==> r != [] && r[0] == s[0])
    decreases |s|
  {
    if s == [] {
    } else if s[0] == '\n' {
      var t := TrimStart(s[1..]);
      var rest := CollapseIndent(t);
      TrimStartShape(s[1..]);
      CollapseShape(t);
      assert t == [] ==> rest == [];
      ConsKeepsNoIndent('\n', rest);
      VisibleCons('\n', rest);
      VisibleCons(s[0], s[1..]);
      assert s == [s[0]] + s[1..];
    } else {
      var rest := CollapseIndent(s[1..]);
      CollapseShape(s[1..]);
      assert s[1..] == [] ==> rest == [];
      ConsKeepsNoIndent(s[0], rest);
      VisibleCons(s[0], rest);
      VisibleCons(s[0], s[1..]);
      assert s == [s[0]] + s[1..];
    }
  }

  lemma VisibleCons(c: char, s: string)
    ensures Visible([c] + s) == (if IsSpace(c) then [] else [c]) + Visible(s)
  {
    assert ([c] + s)[1..] == s;
  }

  lemma ConsKeepsNoIndent(c: char, s: string)
    requires NoIndent(s)
    requires c == '\n' ==> s == [] || !IsSpace(s[0])
    ensures NoIndent([c] + s)
  {
    var t := [c] + s;
    forall i | 0 <= i < |t| - 1 && t[i] == '\n'
      ensures !IsSpace(t[i + 1])
    {
      if i > 0 {
        assert t[i] == s[i - 1] && t[i + 1] == s[i];
      }
    }
  }

  /** A string without indented lines is left as it is. */
  lemma {:induction false} CollapseFixpoint(s: string)
    requires NoIndent(s)
    ensures CollapseIndent(s) == s
  {
    if s != [] {
      assert NoIndent(s[1..]) by {
        forall i | 0 <= i < |s[1..]| - 1 && s[1..][i] == '\n'
          ensures !IsSpace(s[1..][i + 1])
        {
          assert s[i + 1] == '\n';
        }
      }
      CollapseFixpoint(s[1..]);
      if s[0] == '\n' {
        assert s[1..] == [] || !IsSpace(s[1]);
        assert TrimStart(s[1..]) == s[1..];
      }
    }
  }

  /** Applying the substitution twice changes nothing more. */
  lemma CollapseIdempotent(s: string)
    ensures CollapseIndent(CollapseIndent(s)) == CollapseIndent(s)
  {
    CollapseShape(s);
    CollapseFixpoint(CollapseIndent(s));
  }

  /** A string without a newline is left as it is. */
  lemma CollapseWithoutNewline(s: string)
    requires '\n' !in s
    ensures CollapseIndent(s) == s
  {
    CollapseFixpoint(s);
  }

  /** The substitution keeps a non-whitespace last character. */
  lemma {:induction false} CollapseKeepsLast(s: string)
    requires s != [] && !IsSpace(s[|s| - 1])
    ensures var r := CollapseIndent(s); r != [] && r[|r| - 1] == s[|s| - 1]
  {
    if s[0] == '\n' {
      var t := TrimStart(s[1..]);
      TrimStartShape(s[1..]);
      assert s[1..][..|s| - 1] == s[1..];
      assert !AllSpace(s[1..]) by {
        assert s[1..][|s| - 2] == s[|s| - 1];
      }
      assert t[|t| - 1] == s[|s| - 1];
      CollapseKeepsLast(t);
    } else if |s| > 1 {
      CollapseKeepsLast(s[1..]);
    }
  }

  /** The substitution keeps a stripped string stripped. */
  lemma CollapseKeepsStripped(s: string)
    requires Stripped(s)
    ensures Stripped(CollapseIndent(s))
  {
    if s != [] {
      CollapseShape(s);
      CollapseKeepsLast(s);
    }
  }

  /** A line break followed by indentation collapses to the bare line break,
      and a run of whitespace before a line break is kept. */
  lemma CollapseLine(line: string, indent: string, rest: string)
    requires '\n' !in line && AllSpace(indent)
    requires rest == [] || !IsSpace(rest[0])
    ensures CollapseIndent(line + ['\n'] + indent + rest) == line + ['\n'] + CollapseIndent(rest)
  {
    CollapsePrefix(line, ['\n'] + (indent + rest));
    CollapseAtBreak(indent, rest);
    Assoc4(line, ['\n'], indent, rest);
    Assoc3(line, ['\n'], CollapseIndent(rest));
  }

  /** Blank lines inside a run vanish: "a\n\n   b" becomes "a\nb". */
  lemma BlankLinesVanish(s: string)
    requires s == "a\n\n   b"
    ensures CollapseIndent(s) == "a\nb"
  {
    assert s == "a" + ['\n'] + "\n   " + "b";
    CollapseLine("a", "\n   ", "b");
    CollapseWithoutNewline("b");
  }

  /** Whitespace before a line break is kept: "a  \n  b" becomes "a  \nb". */
  lemma TrailingSpaceKept(s: string)
    requires s == "a  \n  b"
    ensures CollapseIndent(s) == "a  \nb"
  {
    assert s == "a  " + ['\n'] + "  " + "b";
    CollapseLine("a  ", "  ", "b");
    CollapseWithoutNewline("b");
  }

  lemma Assoc3(a: string, b: string, c: string)
    ensures a + b + c == a + (b + c)
  {
  }

  lemma Assoc4(a: string, b: string, c: string, d: string)
    ensures a + b + c + d == a + (b + (c + d))
  {
  }

  /** Text before the first newline passes through unchanged. */
  lemma {:induction false} CollapsePrefix(line: string, t: string)
    requires '\n' !in line
    ensures CollapseIndent(line + t) == line + CollapseIndent(t)
    decreases |line|
  {
    if line == [] {
      assert line + t == t;
    } else {
      var u, c := line + t, line[0];
      assert u[0] == c && c != '\n';
      assert u[1..] == line[1..] + t;
      CollapsePrefix(line[1..], t);
      assert CollapseIndent(u) == [c] + (line[1..] + CollapseIndent(t));
      ConsAppend(c, line[1..], CollapseIndent(t));
      assert [c] + line[1..] == line;
    }
  }

  lemma ConsAppend(c: char, a: string, b: string)
    ensures [c] + (a + b) == ([c] + a) + b
  {
  }

  lemma CollapseAtBreak(indent: string, rest: string)
    requires AllSpace(indent)
    requires rest == [] || !IsSpace(rest[0])
    ensures CollapseIndent(['\n'] + (indent + rest)) == ['\n'] + CollapseIndent(rest)
  {
    var s := ['\n'] + (indent + rest);
    assert s[1..] == indent + rest;
    TrimIndent(indent, rest);
  }

  lemma CollapseCons(c: char, t: string)
    requires c != '\n'
    ensures CollapseIndent([c] + t) == [c] + CollapseIndent(t)
  {
    assert ([c] + t)[1..] == t;
  }

  /** Dropping leading whitespace from `indent + rest` leaves `rest`. */
  lemma {:induction false} TrimIndent(indent: string, rest: string)
    requires AllSpace(indent) && (rest == [] || !IsSpace(rest[0]))
    ensures TrimStart(indent + rest) == rest
    decreases |indent|
  {
    if indent == [] {
      assert indent + rest == rest;
    } else {
      assert (indent + rest)[1..] == indent[1..] + rest;
      TrimIndent(indent[1..], rest);
    }
  }

  /** Python's `sep.join(parts)`. */
  function Join(parts: seq<string>, sep: string): string {
    if |parts| == 0 then []
    else if |parts| == 1 then parts[0]
    else parts[0] + sep + Join(parts[1..], sep)
  }

  /** `sep` occurs nowhere in `s`. */
  predicate NoOccurrence(s: string, sep: string) {
    forall i :: 0 <= i <= |s| - |sep| ==> !OccursAt(s, sep, i)
  }

  /** `sep` occurs in `s` starting at index `i`. */
  predicate OccursAt(s: string, sep: string, i: nat) {
    i + |sep| <= |s| && s[i..i + |sep|] == sep
  }

  /** Python's `s.split(sep)` for a non-empty separator: the pieces between the
      leftmost non-overlapping occurrences of `sep`. */
  function SplitOn(s: string, sep: string): (parts: seq<string>)
    requires sep != []
    ensures |parts| >= 1
    decreases |s|
  {
    if |s| < |sep| then [s]
    else if s[..|sep|] == sep then [[]] + SplitOn(s[|sep|..], sep)
    else
      var rest := SplitOn(s[1..], sep);
      [[s[0]] + rest[0]] + rest[1..]
  }

  /** Joining the pieces of a split gives back the string. */
  lemma {:induction false} JoinSplit(s: string, sep: string)
    requires sep != []
    ensures Join(SplitOn(s, sep), sep) == s
    decreases |s|
  {
    if |s| < |sep| {
    } else if s[..|sep|] == sep {
      var tail := s[|sep|..];
      JoinSplit(tail, sep);
      assert s == [] + sep + tail;
    } else {
      var rest := SplitOn(s[1..], sep);
      JoinSplit(s[1..], sep);
      JoinConsFirst(s[0], rest, sep);
      assert s == [s[0]] + s[1..];
    }
  }

  /** Prefixing a character to the first part prefixes it to the join. */
  lemma JoinConsFirst(c: char, parts: seq<string>, sep: string)
    requires |parts| >= 1
    ensures Join([[c] + parts[0]] + parts[1..], sep) == [c] + Join(parts, sep)
  {
    var ps := [[c] + parts[0]] + parts[1..];
    assert ps[1..] == parts[1..];
  }

  /** A part that cannot begin `sep` is split off whole. */
  lemma {:induction false} SplitOnPrefix(p: string, sep: string, t: string)
    requires sep != [] && sep[0] !in p
    ensures SplitOn(p + sep + t, sep) == [p] + SplitOn(t, sep)
    decreases |p|
  {
    var s := p + sep + t;
    if p == [] {
      assert s[..|sep|] == sep && s[|sep|..] == t;
    } else {
      assert s[0] == p[0] != sep[0];
      assert s[..|sep|] != sep;
      assert s[1..] == p[1..] + sep + t;
      SplitOnPrefix(p[1..], sep, t);
      assert [p[0]] + p[1..] == p;
    }
  }

  /** A string in which `sep` does not occur is a single piece. */
  lemma {:induction false} SplitOnNone(t: string, sep: string)
    requires sep != [] && NoOccurrence(t, sep)
    ensures SplitOn(t, sep) == [t]
    decreases |t|
  {
    if |t| >= |sep| {
      assert !OccursAt(t, sep, 0);
      assert NoOccurrence(t[1..], sep) by {
        forall i | 0 <= i <= |t[1..]| - |sep|
          ensures !OccursAt(t[1..], sep, i)
        {
          assert !OccursAt(t, sep, i + 1);
          assert t[1..][i..i + |sep|] == t[i + 1..i + 1 + |sep|];
        }
      }
      SplitOnNone(t[1..], sep);
      assert [t[0]] + t[1..] == t;
    }
  }

  /** Splitting a join gives back the parts, provided no part but the last can
      begin the separator and the separator does not occur in the last. */
  lemma {:induction false} SplitJoin(parts: seq<string>, sep: string)
    requires sep != [] && |parts| >= 1
    requires forall k :: 0 <= k < |parts| - 1 ==> sep[0] !in parts[k]
    requires NoOccurrence(parts[|parts| - 1], sep)
    ensures SplitOn(Join(parts, sep), sep) == parts
    decreases |parts|
  {
    if |parts| == 1 {
      SplitOnNone(parts[0], sep);
    } else {
      SplitJoin(parts[1..], sep);
      SplitOnPrefix(parts[0], sep, Join(parts[1..], sep));
      assert [parts[0]] + parts[1..] == parts;
    }
  }

  /** A string without the separator's first character lacks the separator. */
  lemma NoFirstCharNoOccurrence(s: string, sep: string)
    requires sep != [] && sep[0] !in s
    ensures NoOccurrence(s, sep)
  {
    forall i | 0 <= i <= |s| - |sep|
      ensures !OccursAt(s, sep, i)
    {
      assert s[i..i + |sep|][0] == s[i];
    }
  }
}
