/** The parts of Go's `strings` and `unicode` packages that the tool relies on,
    over strings as sequences of characters. */
module Text {

  /** unicode.IsSpace: the Latin-1 white space and the other White_Space code points. */
  predicate IsSpace(c: char)
  {
    || c == ' ' || c == '\t' || c == '\n' || c == '\U{0B}' || c == '\U{0C}' || c == '\r'
    || c == '\U{85}' || c == '\U{A0}' || c == '\U{1680}'
    || ('\U{2000}' <= c <= '\U{200A}')
    || c == '\U{2028}' || c == '\U{2029}' || c == '\U{202F}' || c == '\U{205F}' || c == '\U{3000}'
  }

  /** A string that strings.TrimSpace reduces to "". */
  predicate AllSpace(s: string)
  {
    forall k :: 0 <= k < |s| ==> IsSpace(s[k])
  }

  /** strings.HasPrefix */
  predicate HasPrefix(s: string, p: string)
  {
    |p| <= |s| && s[..|p|] == p
  }

  /** strings.HasSuffix */
  predicate HasSuffix(s: string, p: string)
  {
    |p| <= |s| && s[|s| - |p|..] == p
  }

  /** `sub` occurs in `s` starting at index `k`. */
  predicate OccursAt(s: string, sub: string, k: int)
  {
    0 <= k && k + |sub| <= |s| && s[k..k + |sub|] == sub
  }

  /** strings.Contains */
  predicate Contains(s: string, sub: string)
  {
    exists k :: 0 <= k <= |s| && OccursAt(s, sub, k)
  }

  /** The leading white space removed by strings.TrimLeftFunc(s, unicode.IsSpace). */
  function TrimLeft(s: string): (r: string)
    ensures |r| <= |s| && r == s[|s| - |r|..]
    ensures r == [] || !IsSpace(r[0])
    ensures AllSpace(s[..|s| - |r|])
  {
    if |s| > 0 && IsSpace(s[0]) then
      var r := TrimLeft(s[1..]);
      SpaceBeforeSuffix(s, r);
      r
    else s
  }

  /** A space, then white space, then `r`: all of it before `r` is white space. */
  lemma SpaceBeforeSuffix(s: string, r: string)
    requires |s| > 0 && IsSpace(s[0])
    requires |r| <= |s| - 1 && r == s[1..][|s| - 1 - |r|..] && AllSpace(s[1..][..|s| - 1 - |r|])
    ensures r == s[|s| - |r|..] && AllSpace(s[..|s| - |r|])
  {
    var front := s[..|s| - |r|];
    var rest := s[1..][..|s| - 1 - |r|];
    forall j | 0 <= j < |front| ensures IsSpace(front[j]) {
      if j > 0 {
        assert front[j] == rest[j - 1];
      }
    }
  }

  /** The trailing white space removed by strings.TrimRightFunc(s, unicode.IsSpace). */
  function TrimRight(s: string): (r: string)
    ensures |r| <= |s| && r == s[..|r|]
    ensures r == [] || !IsSpace(r[|r| - 1])
    ensures AllSpace(s[|r|..])
  {
    if |s| > 0 && IsSpace(s[|s| - 1]) then
      var r := TrimRight(s[..|s| - 1]);
      SpaceAfterPrefix(s, r);
      r
    else s
  }

  /** `r`, then white space, then a space: all of it after `r` is white space. */
  lemma SpaceAfterPrefix(s: string, r: string)
    requires |s| > 0 && IsSpace(s[|s| - 1])
    requires |r| <= |s| - 1 && r == s[..|s| - 1][..|r|] && AllSpace(s[..|s| - 1][|r|..])
    ensures r == s[..|r|] && AllSpace(s[|r|..])
  {
    var back := s[|r|..];
    var rest := s[..|s| - 1][|r|..];
    forall j | 0 <= j < |back| ensures IsSpace(back[j]) {
      if j < |rest| {
        assert back[j] == rest[j];
      }
    }
  }

  /** How many characters TrimSpace drops at the front of `s`. */
  function TrimStart(s: string): nat
  {
    |s| - |TrimLeft(s)|
  }

  /** strings.TrimSpace: the infix of `s` that drops white space at both ends. */
  function TrimSpace(s: string): (r: string)
    ensures r == [] || (!IsSpace(r[0]) && !IsSpace(r[|r| - 1]))
    ensures r == [] <==> AllSpace(s)
  {
    var l := TrimLeft(s);
    var r := TrimRight(l);
    TrimBoth(s, l, r);
    r
  }

  /** TrimSpace keeps the infix of `s` that starts where the leading white
      space ends. */
  lemma TrimSpaceInfix(s: string)
    ensures TrimStart(s) + |TrimSpace(s)| <= |s|
    ensures TrimSpace(s) == s[TrimStart(s)..TrimStart(s) + |TrimSpace(s)|]
  {
    var l := TrimLeft(s);
    var r := TrimRight(l);
    assert TrimSpace(s) == r && TrimStart(s) == |s| - |l|;
    TrimBoth(s, l, r);
  }

  /** White space cut from the front of `s` leaves `l`, and white space cut
      from the end of `l` leaves `r`: `r` is the infix of `s` between the
      two, starts and ends in text, and is empty exactly when `s` is white
      space. */
  lemma TrimBoth(s: string, l: string, r: string)
    requires |l| <= |s| && l == s[|s| - |l|..] && (l == [] || !IsSpace(l[0])) && AllSpace(s[..|s| - |l|])
    requires |r| <= |l| && r == l[..|r|] && (r == [] || !IsSpace(r[|r| - 1])) && AllSpace(l[|r|..])
    ensures |s| - |l| + |r| <= |s| && r == s[|s| - |l|..|s| - |l| + |r|]
    ensures r == [] || (!IsSpace(r[0]) && !IsSpace(r[|r| - 1]))
    ensures r == [] <==> AllSpace(s)
  {
    PrefixOfSuffix(s, l, r);
    TrimmedBlank(s[..|s| - |l|], l, r);
    assert s == s[..|s| - |l|] + l;
  }

  /** A prefix of a suffix is an infix. */
  lemma PrefixOfSuffix(s: string, l: string, r: string)
    requires |l| <= |s| && l == s[|s| - |l|..]
    requires |r| <= |l| && r == l[..|r|]
    ensures r == s[|s| - |l|..|s| - |l| + |r|]
    ensures r != [] ==> r[0] == l[0]
  {
  }

  /** White space followed by white space is white space. */
  lemma AllSpaceConcat(a: string, b: string)
    requires AllSpace(a) && AllSpace(b)
    ensures AllSpace(a + b)
  {
    forall j | 0 <= j < |a + b| ensures IsSpace((a + b)[j]) {
      if j >= |a| {
        assert (a + b)[j] == b[j - |a|];
      }
    }
  }

  /** White space, then `l` whose white space at the end leaves `r`: all
      of it is white space exactly when nothing is left. */
  lemma TrimmedBlank(front: string, l: string, r: string)
    requires AllSpace(front)
    requires |r| <= |l| && r == l[..|r|] && AllSpace(l[|r|..])
    requires l == [] || !IsSpace(l[0])
    ensures r == [] <==> AllSpace(front + l)
  {
    if r == [] {
      assert l[|r|..] == l;
      AllSpaceConcat(front, l);
    } else {
      assert (front + l)[|front|] == l[0];
    }
  }

  /** Removing white space from both ends cannot introduce a character. */
  lemma TrimSpaceChars(s: string, c: char)
    requires c !in s
    ensures c !in TrimSpace(s)
  {
    var r, i := TrimSpace(s), TrimStart(s);
    TrimSpaceInfix(s);
    forall k | 0 <= k < |r| ensures r[k] != c {
      assert r[k] == s[i + k];
    }
  }

  /** A string that does not start or end in white space is its own TrimSpace. */
  lemma TrimSpaceOfTrimmed(s: string)
    requires s == [] || (!IsSpace(s[0]) && !IsSpace(s[|s| - 1]))
    ensures TrimSpace(s) == s
  {
  }

  /** Concatenation regroups freely. */
  lemma Assoc<T>(a: seq<T>, b: seq<T>, c: seq<T>)
    ensures a + b + c == a + (b + c)
  {
  }

  /** Concatenation regroups freely: four parts. */
  lemma Assoc3<T>(a: seq<T>, b: seq<T>, c: seq<T>, d: seq<T>)
    ensures a + b + c + d == a + (b + c + d)
  {
  }

  /** The head of a sequence put back in front of its tail. */
  lemma ConsAppend<T>(s: seq<T>, c: seq<T>)
    requires s != []
    ensures [s[0]] + (s[1..] + c) == s + c
  {
    assert s == [s[0]] + s[1..];
  }

  /** A string starts with its first part. */
  lemma ConcatHasPrefix(head: string, rest: string)
    ensures HasPrefix(head + rest, head)
  {
    assert (head + rest)[..|head|] == head;
  }

  /** A string ends with its last part. */
  lemma ConcatOccursAtEnd(head: string, rest: string)
    ensures OccursAt(head + rest, rest, |head|)
  {
    assert (head + rest)[|head|..|head| + |rest|] == rest;
  }

  /** Both halves of a concatenation occur in it. */
  lemma ContainsHalves(a: string, b: string)
    ensures Contains(a + b, a) && Contains(a + b, b)
  {
    assert OccursAt(a + b, a, 0) by {
      assert (a + b)[0..|a|] == a;
    }
    assert OccursAt(a + b, b, |a|) by {
      assert (a + b)[|a|..|a| + |b|] == b;
    }
  }

  /** What occurs in a part of a text occurs in the text. */
  lemma ContainsTransitive(s: string, m: string, sub: string)
    requires Contains(s, m) && Contains(m, sub)
    ensures Contains(s, sub)
  {
    var i :| 0 <= i <= |s| && OccursAt(s, m, i);
    var j :| 0 <= j <= |m| && OccursAt(m, sub, j);
    assert s[i..i + |m|] == m;
    forall k | 0 <= k < |sub| ensures s[i + j + k] == sub[k] {
      assert s[i + j + k] == s[i..i + |m|][j + k] == m[j + k] == m[j..j + |sub|][k];
    }
    assert s[i + j..i + j + |sub|] == sub;
    assert OccursAt(s, sub, i + j);
  }

  /** What occurs in the front part occurs in the whole. */
  lemma ContainsInFront(init: string, last: string, sub: string)
    requires Contains(init, sub)
    ensures Contains(init + last, sub)
  {
    ContainsHalves(init, last);
    ContainsTransitive(init + last, init, sub);
  }

  /** strings.Split(s, string(sep)): the pieces between the separators, in order. */
  function Split(s: string, sep: char): (parts: seq<string>)
    ensures |parts| >= 1
    ensures forall i :: 0 <= i < |parts| ==> sep !in parts[i]
  {
    if s == [] then [""]
    else
      var rest := Split(s[1..], sep);
      if s[0] == sep then [""] + rest
      else [[s[0]] + rest[0]] + rest[1..]
  }

  /** strings.Join */
  function Join(parts: seq<string>, sep: string): string
  {
    if parts == [] then ""
    else if |parts| == 1 then parts[0]
    else parts[0] + sep + Join(parts[1..], sep)
  }

  /** Joining the pieces of a split with the separator gives back the string. */
  lemma {:induction false} JoinSplit(s: string, sep: char)
    ensures Join(Split(s, sep), [sep]) == s
  {
    if s != [] {
      var rest := Split(s[1..], sep);
      JoinSplit(s[1..], sep);
      if s[0] == sep {
        assert Split(s, sep) == [""] + rest;
        assert ([""] + rest)[1..] == rest;
      } else {
        var parts := Split(s, sep);
        assert parts == [[s[0]] + rest[0]] + rest[1..];
        if |rest| > 1 {
          assert parts[1..] == rest[1..];
          assert Join(rest, [sep]) == rest[0] + [sep] + Join(rest[1..], [sep]);
        }
      }
    }
  }

  /** Splitting a string whose first part holds no separator. */
  lemma {:induction false} SplitAfterPiece(p: string, t: string, sep: char)
    requires sep !in p
    ensures Split(p + t, sep) == [p + Split(t, sep)[0]] + Split(t, sep)[1..]
  {
    if p != [] {
      var st := Split(t, sep);
      SplitAfterPiece(p[1..], t, sep);
      assert (p + t)[1..] == p[1..] + t;
      var rest := Split(p[1..] + t, sep);
      assert rest == [p[1..] + st[0]] + st[1..];
      assert rest[0] == p[1..] + st[0] && rest[1..] == st[1..];
      assert (p + t)[0] == p[0] != sep;
      assert Split(p + t, sep) == [[p[0]] + rest[0]] + rest[1..];
      assert [p[0]] + (p[1..] + st[0]) == p + st[0];
    } else {
      var st := Split(t, sep);
      assert p + t == t && p + st[0] == st[0];
      assert st == [st[0]] + st[1..];
    }
  }

  /** Splitting the join of separator-free pieces gives back the pieces. */
  lemma {:induction false} SplitJoin(parts: seq<string>, sep: char)
    requires |parts| >= 1
    requires forall i :: 0 <= i < |parts| ==> sep !in parts[i]
    ensures Split(Join(parts, [sep]), sep) == parts
  {
    if |parts| == 1 {
      SplitAfterPiece(parts[0], "", sep);
      assert parts[0] + "" == parts[0];
    } else {
      var tail := Join(parts[1..], [sep]);
      SplitJoin(parts[1..], sep);
      assert Join(parts, [sep]) == parts[0] + ([sep] + tail);
      SplitAfterPiece(parts[0], [sep] + tail, sep);
      var u := [sep] + tail;
      assert u != [] && u[0] == sep && u[1..] == tail;
      assert Split(u, sep) == [""] + Split(tail, sep);
      var su := Split(u, sep);
      assert su[0] == "" && su[1..] == parts[1..];
      assert parts[0] + su[0] == parts[0];
      assert parts == [parts[0]] + parts[1..];
    }
  }

  /** strings.ReplaceAll(s, string(from), string(to)) for one-character strings. */
  function ReplaceChar(s: string, from: char, to: char): (r: string)
    ensures |r| == |s|
    ensures forall k :: 0 <= k < |s| ==> r[k] == if s[k] == from then to else s[k]
  {
    if s == [] then []
    else
      var rest := ReplaceChar(s[1..], from, to);
      var r := [if s[0] == from then to else s[0]] + rest;
      assert forall k :: 1 <= k < |s| ==> r[k] == rest[k - 1] && s[k] == s[1..][k - 1];
      r
  }

  /** strings.Index: the first index at which `sub` occurs, or -1. */
  function Index(s: string, sub: string): (r: int)
    ensures r == -1 || OccursAt(s, sub, r)
    ensures r == -1 ==> !Contains(s, sub)
    ensures r >= 0 ==> forall k :: 0 <= k < r ==> !OccursAt(s, sub, k)
  {
    IndexFrom(s, sub, 0)
  }

  function IndexFrom(s: string, sub: string, i: nat): (r: int)
    requires forall k :: 0 <= k < i ==> !OccursAt(s, sub, k)
    ensures r == -1 || (i <= r && OccursAt(s, sub, r))
    ensures r == -1 ==> !Contains(s, sub)
    ensures r >= 0 ==> forall k :: 0 <= k < r ==> !OccursAt(s, sub, k)
    decreases |s| - i
  {
    if i + |sub| > |s| then
      assert forall k :: OccursAt(s, sub, k) ==> k < i;
      -1
    else if s[i..i + |sub|] == sub then i
    else IndexFrom(s, sub, i + 1)
  }

  /** Lines written one after the other, each ended by a line break. */
  function Terminated(ls: seq<string>): string
  {
    if ls == [] then "" else Terminated(ls[..|ls| - 1]) + ls[|ls| - 1] + "\n"
  }

  /** One more terminated line at the end. */
  lemma TerminatedSnoc(ls: seq<string>, x: string)
    ensures Terminated(ls + [x]) == Terminated(ls) + x + "\n"
  {
    assert (ls + [x])[..|ls|] == ls;
  }

  /** Terminated lines, taken from the front. */
  lemma {:induction false} TerminatedFront(ls: seq<string>)
    requires ls != []
    ensures Terminated(ls) == ls[0] + "\n" + Terminated(ls[1..])
    decreases |ls|
  {
    if |ls| > 1 {
      var init := ls[..|ls| - 1];
      TerminatedFront(init);
      assert init[1..] == ls[1..][..|ls[1..]| - 1];
      assert ls[1..][|ls[1..]| - 1] == ls[|ls| - 1];
      Assoc3(ls[0] + "\n", Terminated(init[1..]), ls[|ls| - 1], "\n");
    } else {
      assert ls[..0] == [] && ls[1..] == [];
    }
  }

  /** A line of text followed by a line break and more text splits into that
      line and the pieces of the rest. */
  lemma SplitLine(p: string, t: string)
    requires '\n' !in p
    ensures Split(p + "\n" + t, '\n') == [p] + Split(t, '\n')
  {
    SplitAfterPiece(p, "\n" + t, '\n');
    var u := "\n" + t;
    assert p + "\n" + t == p + u;
    assert u[0] == '\n' && u[1..] == t;
    var su := Split(u, '\n');
    assert su == [""] + Split(t, '\n');
    assert su[0] == "" && su[1..] == Split(t, '\n');
    assert p + su[0] == p;
  }

  /** Terminated lines without line breaks of their own split back into
      the lines. */
  lemma {:induction false} TerminatedSplit(ls: seq<string>, t: string)
    requires forall i :: 0 <= i < |ls| ==> '\n' !in ls[i]
    ensures Split(Terminated(ls) + t, '\n') == ls + Split(t, '\n')
    decreases |ls|
  {
    if ls == [] {
      assert Terminated(ls) + t == t;
    } else {
      assert forall i :: 0 <= i < |ls[1..]| ==> ls[1..][i] == ls[i + 1];
      TerminatedSplit(ls[1..], t);
      TerminatedSplitStep(ls, t, Terminated(ls[1..]));
    }
  }

  /** Lines printed with Fprintln and then an empty Fprintln split back
      into the lines and two empty pieces. */
  lemma PrintedLines(lines: seq<string>)
    requires forall i :: 0 <= i < |lines| ==> '\n' !in lines[i]
    ensures Split(Terminated(lines) + "\n", '\n') == lines + ["", ""]
  {
    TerminatedSplit(lines, "\n");
    SplitNewline();
  }

  /** A lone line break splits into two empty pieces. */
  lemma SplitNewline()
    ensures Split("\n", '\n') == ["", ""]
  {
    SplitLine("", "");
    assert "" + "\n" + "" == "\n";
  }

  /** One step of TerminatedSplit: the first line, then the rest. */
  lemma TerminatedSplitStep(ls: seq<string>, t: string, rest: string)
    requires ls != [] && '\n' !in ls[0] && rest == Terminated(ls[1..])
    requires Split(rest + t, '\n') == ls[1..] + Split(t, '\n')
    ensures Split(Terminated(ls) + t, '\n') == ls + Split(t, '\n')
  {
    TerminatedFront(ls);
    Assoc(ls[0] + "\n", rest, t);
    SplitLine(ls[0], rest + t);
    ConsAppend(ls, Split(t, '\n'));
  }
}
