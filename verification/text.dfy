/** String operations the descriptor engine and the request filter are built from: Java's `trim`,
    `indexOf` and `lastIndexOf`, joining, splitting into lines, and splitting a clause into tokens. */
module Text {

  /** Java's `String.trim` treats every character at or below U+0020 as white space. */
  predicate IsSpace(c: char) {
    c <= ' '
  }

  /** Tokens of a clause are separated by white space and by the `,` and `;` punctuation. */
  predicate IsSeparator(c: char) {
    IsSpace(c) || c == ',' || c == ';'
  }

  /** A non-empty run of non-separator characters. */
  predicate IsWord(w: string) {
    |w| > 0 && forall i :: 0 <= i < |w| ==> !IsSeparator(w[i])
  }

  predicate AllSpace(s: string) {
    forall i :: 0 <= i < |s| ==> IsSpace(s[i])
  }

  predicate StartsWith<T(==)>(s: seq<T>, prefix: seq<T>) {
    |prefix| <= |s| && s[..|prefix|] == prefix
  }

  /** Whether `s` holds the two characters `a` `b` next to each other. */
  predicate ContainsPair(s: string, a: char, b: char) {
    exists i :: 0 <= i < |s| - 1 && s[i] == a && s[i + 1] == b
  }

  // ---------------------------------------------------------------- trim

  /** Drops the leading white space. */
  function TrimLeft(s: string): (r: string)
    ensures |r| <= |s| && r == s[|s| - |r|..]
    ensures AllSpace(s[..|s| - |r|])
    ensures |r| > 0 ==> !IsSpace(r[0])
  {
    if |s| > 0 && IsSpace(s[0]) then TrimLeft(s[1..]) else s
  }

  /** Drops the trailing white space. */
  function TrimRight(s: string): (r: string)
    ensures |r| <= |s| && r == s[..|r|]
    ensures AllSpace(s[|r|..])
    ensures |r| > 0 ==> !IsSpace(r[|r| - 1])
  {
    if |s| > 0 && IsSpace(s[|s| - 1]) then TrimRight(s[..|s| - 1]) else s
  }

  /** Java's `String.trim`. */
  function Trim(s: string): string {
    TrimRight(TrimLeft(s))
  }

  /** Trimming a line made of indentation and a core that starts and ends with a visible character
      gives back the core. */
  lemma TrimIndented(indent: string, core: string)
    requires AllSpace(indent)
    requires |core| > 0 && !IsSpace(core[0]) && !IsSpace(core[|core| - 1])
    ensures Trim(indent + core) == core
  {
    var s := indent + core;
    var l := TrimLeft(s);
    var m := |s| - |l|;
    forall i | 0 <= i < m
      ensures IsSpace(s[i])
    {
      assert s[..m][i] == s[i];
    }
    assert !IsSpace(s[|indent|]);
    assert m <= |indent|;
    assert l[0] == s[m];
    assert m == |indent|;
    assert l == core;
  }

  /** A line that starts and ends with a visible character is its own trim. */
  lemma TrimVisible(s: string)
    requires |s| > 0 && !IsSpace(s[0]) && !IsSpace(s[|s| - 1])
    ensures Trim(s) == s
  {
    assert "" + s == s;
    TrimIndented("", s);
  }

  lemma EmptyAppend<T>(e: seq<T>, s: seq<T>)
    requires |e| == 0
    ensures e + s == s && s + e == s
  {
  }

  lemma AppendAssoc<T>(a: seq<T>, b: seq<T>, c: seq<T>)
    ensures a + b + c == a + (b + c)
  {
  }

  /** Putting one more line in front of a framed block of lines. */
  lemma PrependFramed<T>(x: T, y: T, l: seq<T>, z: T)
    ensures [x] + ([y] + l + [z]) == [x, y] + l + [z]
  {
    AppendAssoc([x], [y] + l, [z]);
    AppendAssoc([x], [y], l);
  }

  lemma SplitAt<T>(a: seq<T>, b: seq<T>, n: nat)
    requires 0 < n <= |a|
    ensures (a + b)[0] == a[0] && (a + b)[..n] == a[..n] && (a + b)[n..] == a[n..] + b
  {
  }

  /** Appending the head of `s` and then its tail appends `s`. */
  lemma AppendFirst<T>(acc: seq<T>, s: seq<T>)
    requires |s| > 0
    ensures acc + [s[0]] + s[1..] == acc + s
  {
  }

  /** A sequence whose first two elements are `a` and `b` starts with `[a, b]`. */
  lemma StartsWithPair<T>(s: seq<T>, a: T, b: T)
    requires |s| >= 2 && s[0] == a && s[1] == b
    ensures StartsWith(s, [a, b])
  {
    assert s[..2] == [a, b];
  }

  /** A line ending in a visible character has no trailing white space to drop. */
  lemma TrimRightVisible(s: string)
    requires |s| > 0 && !IsSpace(s[|s| - 1])
    ensures TrimRight(s) == s
  {
  }

  // ---------------------------------------------------------------- search

  function Max(a: int, b: int): int {
    if a < b then b else a
  }

  /** Java's `s.indexOf(c, from)`: the least index at or after `from` (a negative `from` counts as 0)
      holding `c`, or -1 when there is none. */
  function IndexOf(s: string, c: char, from: int): (r: int)
    ensures -1 <= r < |s|
    ensures r >= 0 ==> Max(from, 0) <= r && s[r] == c
    ensures r >= 0 ==> forall i :: Max(from, 0) <= i < r ==> s[i] != c
    ensures r == -1 ==> forall i :: Max(from, 0) <= i < |s| ==> s[i] != c
    decreases |s| - Max(from, 0), if from < 0 then 1 else 0
  {
    if from < 0 then IndexOf(s, c, 0)
    else if from >= |s| then -1
    else if s[from] == c then from
    else IndexOf(s, c, from + 1)
  }

  /** Java's `s.lastIndexOf(c)`: the greatest index holding `c`, or -1 when there is none. */
  function LastIndexOf(s: string, c: char): (r: int)
    ensures -1 <= r < |s|
    ensures r >= 0 ==> s[r] == c
    ensures forall i :: r < i < |s| ==> s[i] != c
  {
    if |s| == 0 then -1
    else if s[|s| - 1] == c then |s| - 1
    else LastIndexOf(s[..|s| - 1], c)
  }

  // ---------------------------------------------------------------- join and lines

  /** `String.join(sep, parts)`. */
  function Join(parts: seq<string>, sep: string): string {
    if |parts| == 0 then ""
    else if |parts| == 1 then parts[0]
    else parts[0] + sep + Join(parts[1..], sep)
  }

  /** Joining two non-empty lists puts one separator between their joins. */
  lemma {:induction false} JoinAppend(a: seq<string>, b: seq<string>, sep: string)
    requires |a| > 0 && |b| > 0
    ensures Join(a + b, sep) == Join(a, sep) + sep + Join(b, sep)
    decreases |a|
  {
    if |a| == 1 {
      assert (a + b)[1..] == b;
    } else {
      assert (a + b)[1..] == a[1..] + b;
      JoinAppend(a[1..], b, sep);
    }
  }

  /** Joining with one more part, seen after a prefix. */
  lemma JoinSnoc(prefix: string, parts: seq<string>, last: string, sep: string)
    requires |parts| > 0
    ensures prefix + Join(parts + [last], sep) == prefix + Join(parts, sep) + sep + last
  {
    JoinAppend(parts, [last], sep);
    AppendAssoc(prefix, Join(parts, sep) + sep, last);
    AppendAssoc(prefix, Join(parts, sep), sep);
  }

  /** Inserting one line between a (possibly empty) head and a non-empty body inserts that line and
      one separator into the joined text. */
  lemma JoinInsert(head: seq<string>, line: string, body: seq<string>)
    requires |body| > 0
    ensures exists before ::
      && Join(head + ([line] + body), "\n") == before + line + "\n" + Join(body, "\n")
      && Join(head + body, "\n") == before + Join(body, "\n")
  {
    JoinAppend([line], body, "\n");
    if |head| == 0 {
      assert head + ([line] + body) == [line] + body;
      assert head + body == body;
      assert Join([line] + body, "\n") == "" + line + "\n" + Join(body, "\n");
      assert Join(body, "\n") == "" + Join(body, "\n");
    } else {
      var before := Join(head, "\n") + "\n";
      JoinAppend(head, [line] + body, "\n");
      JoinAppend(head, body, "\n");
      assert Join(head + ([line] + body), "\n") == before + line + "\n" + Join(body, "\n");
    }
  }

  /** The join ends with the end of its last part. */
  lemma {:induction false} JoinEnds(parts: seq<string>, sep: string)
    requires |parts| > 0 && |parts[|parts| - 1]| > 0
    ensures var j := Join(parts, sep); var last := parts[|parts| - 1];
      |j| >= |last| && j[|j| - |last|..] == last
    decreases |parts|
  {
    if |parts| > 1 {
      JoinEnds(parts[1..], sep);
    }
  }

  /** The join starts with the start of its first part. */
  lemma JoinStarts(parts: seq<string>, sep: string)
    requires |parts| > 0 && |parts[0]| > 0
    ensures |Join(parts, sep)| > 0 && Join(parts, sep)[0] == parts[0][0]
  {
  }

  /** A character of a join comes from one of the parts or from the separator. */
  lemma {:induction false} JoinChars(parts: seq<string>, sep: string, c: char)
    requires c !in sep
    requires forall k :: 0 <= k < |parts| ==> c !in parts[k]
    ensures c !in Join(parts, sep)
    decreases |parts|
  {
    if |parts| > 1 {
      JoinChars(parts[1..], sep, c);
    }
  }

  /** The lines of a text, as Java's `BufferedReader.readLine` returns them for `\n` line ends,
      except that a text ending in `\n` yields a last empty line. */
  function Lines(s: string): (r: seq<string>)
    ensures |r| >= 1
    ensures forall k :: 0 <= k < |r| ==> '\n' !in r[k]
    decreases |s|
  {
    var i := IndexOf(s, '\n', 0);
    if i < 0 then
      AbsentBefore(s, '\n', |s|);
      [s]
    else
      AbsentBefore(s, '\n', i);
      [s[..i]] + Lines(s[i + 1..])
  }

  /** A character missing from the first `n` positions is missing from that prefix. */
  lemma AbsentBefore(s: string, c: char, n: nat)
    requires n <= |s| && forall j :: 0 <= j < n ==> s[j] != c
    ensures c !in s[..n]
  {
    forall j | 0 <= j < n
      ensures s[..n][j] != c
    {
    }
  }

  /** Splitting a joined text gives back its lines ... */
  lemma {:induction false} LinesOfJoin(lines: seq<string>)
    requires |lines| >= 1
    requires forall k :: 0 <= k < |lines| ==> '\n' !in lines[k]
    ensures Lines(Join(lines, "\n")) == lines
    decreases |lines|
  {
    if |lines| > 1 {
      JoinCons(lines, "\n");
      LinesCons(lines[0], Join(lines[1..], "\n"));
      LinesOfJoin(lines[1..]);
    } else {
      assert IndexOf(lines[0], '\n', 0) == -1;
    }
  }

  lemma JoinCons(parts: seq<string>, sep: string)
    requires |parts| > 1
    ensures Join(parts, sep) == parts[0] + sep + Join(parts[1..], sep)
  {
  }

  /** A text made of a line, a line break and more text splits after that line. */
  lemma LinesCons(line: string, rest: string)
    requires '\n' !in line
    ensures Lines(line + "\n" + rest) == [line] + Lines(rest)
  {
    var s := line + "\n" + rest;
    forall i | 0 <= i < |line|
      ensures s[i] != '\n'
    {
      assert s[i] == line[i];
    }
    assert s[|line|] == '\n';
    assert IndexOf(s, '\n', 0) == |line|;
    assert s[..|line|] == line;
    assert s[|line| + 1..] == rest;
  }

  /** ... and joining the lines of a text gives back the text. */
  lemma {:induction false} JoinOfLines(s: string)
    ensures Join(Lines(s), "\n") == s
    decreases |s|
  {
    var i := IndexOf(s, '\n', 0);
    if i >= 0 {
      JoinOfLines(s[i + 1..]);
      LinesAt(s, i);
      JoinPrepend(s[..i], Lines(s[i + 1..]), "\n");
      SplitAround(s, i);
    }
  }

  lemma LinesAt(s: string, i: int)
    requires i == IndexOf(s, '\n', 0) && i >= 0
    ensures Lines(s) == [s[..i]] + Lines(s[i + 1..])
  {
  }

  lemma JoinPrepend(first: string, rest: seq<string>, sep: string)
    requires |rest| > 0
    ensures Join([first] + rest, sep) == first + sep + Join(rest, sep)
  {
    assert ([first] + rest)[1..] == rest;
  }

  lemma SplitAround(s: string, i: int)
    requires 0 <= i < |s| && s[i] == '\n'
    ensures s == s[..i] + "\n" + s[i + 1..]
  {
  }

  // ---------------------------------------------------------------- tokens

  /** Length of the word at the start of `s`. */
  function WordLength(s: string): (n: nat)
    ensures n <= |s|
    ensures forall i :: 0 <= i < n ==> !IsSeparator(s[i])
    ensures n < |s| ==> IsSeparator(s[n])
  {
    if |s| == 0 || IsSeparator(s[0]) then 0 else 1 + WordLength(s[1..])
  }

  /** The words of `s`, as a split on separators that drops empty pieces. */
  function Tokens(s: string): (r: seq<string>)
    ensures forall k :: 0 <= k < |r| ==> IsWord(r[k])
    decreases |s|
  {
    if |s| == 0 then []
    else if IsSeparator(s[0]) then Tokens(s[1..])
    else
      var n := WordLength(s);
      [s[..n]] + Tokens(s[n..])
  }

  /** Tokenizing distributes over a concatenation that a separator already divides. */
  lemma {:induction false} TokensAppend(a: string, b: string)
    requires (|a| > 0 && IsSeparator(a[|a| - 1])) || (|b| > 0 && IsSeparator(b[0]))
    ensures Tokens(a + b) == Tokens(a) + Tokens(b)
    decreases |a|, 1
  {
    if |a| == 0 {
      assert a + b == b;
    } else if IsSeparator(a[0]) {
      TokensAppendSeparator(a, b);
    } else {
      TokensAppendWord(a, b);
    }
  }

  lemma {:induction false} TokensAppendSeparator(a: string, b: string)
    requires (|a| > 0 && IsSeparator(a[|a| - 1])) || (|b| > 0 && IsSeparator(b[0]))
    requires |a| > 0 && IsSeparator(a[0])
    ensures Tokens(a + b) == Tokens(a) + Tokens(b)
    decreases |a|, 0
  {
    SplitAt(a, b, 1);
    TokensSeparatorHead(a + b);
    TokensSeparatorHead(a);
    if |a| > 1 {
      TokensAppend(a[1..], b);
    } else {
      EmptyAppend(a[1..], b);
      assert Tokens(a[1..]) == [];
    }
  }

  lemma {:induction false} TokensAppendWord(a: string, b: string)
    requires (|a| > 0 && IsSeparator(a[|a| - 1])) || (|b| > 0 && IsSeparator(b[0]))
    requires |a| > 0 && !IsSeparator(a[0])
    ensures Tokens(a + b) == Tokens(a) + Tokens(b)
    decreases |a|, 0
  {
    var n := WordLength(a);
    TokensWordSplit(a, b);
    if n < |a| {
      TokensAppend(a[n..], b);
    } else {
      EmptyAppend(a[n..], b);
      assert Tokens(a[n..]) == [];
    }
    AppendAssoc([a[..n]], Tokens(a[n..]), Tokens(b));
  }

  /** The first word of `a + b` is the first word of `a`. */
  lemma TokensWordSplit(a: string, b: string)
    requires (|a| > 0 && IsSeparator(a[|a| - 1])) || (|b| > 0 && IsSeparator(b[0]))
    requires |a| > 0 && !IsSeparator(a[0])
    ensures var n := WordLength(a);
      && 0 < n <= |a|
      && Tokens(a + b) == [a[..n]] + Tokens(a[n..] + b)
      && Tokens(a) == [a[..n]] + Tokens(a[n..])
  {
    var n := WordLength(a);
    WordLengthAppend(a, b);
    SplitAt(a, b, n);
    TokensWordHead(a + b);
    TokensWordHead(a);
  }

  lemma TokensSeparatorHead(s: string)
    requires |s| > 0 && IsSeparator(s[0])
    ensures Tokens(s) == Tokens(s[1..])
  {
  }

  lemma TokensWordHead(s: string)
    requires |s| > 0 && !IsSeparator(s[0])
    ensures Tokens(s) == [s[..WordLength(s)]] + Tokens(s[WordLength(s)..])
  {
  }

  lemma {:induction false} WordLengthAppend(a: string, b: string)
    requires (|a| > 0 && IsSeparator(a[|a| - 1])) || (|b| > 0 && IsSeparator(b[0]))
    ensures WordLength(a + b) == WordLength(a)
    decreases |a|
  {
    if |a| > 0 && !IsSeparator(a[0]) {
      assert (a + b)[1..] == a[1..] + b;
      if |a| == 1 {
        assert a[1..] + b == b;
      } else {
        WordLengthAppend(a[1..], b);
      }
    }
  }

  lemma WordTokens(w: string)
    requires IsWord(w)
    ensures Tokens(w) == [w]
  {
    assert WordLength(w) == |w|;
    assert w[..|w|] == w;
    assert w[|w|..] == "";
  }

  lemma {:induction false} SeparatorTokens(s: string)
    requires forall i :: 0 <= i < |s| ==> IsSeparator(s[i])
    ensures Tokens(s) == []
    decreases |s|
  {
    if |s| > 0 {
      SeparatorTokens(s[1..]);
    }
  }

  /** Tokenizing words joined by single spaces gives back the words. */
  lemma {:induction false} TokensOfWords(words: seq<string>)
    requires forall k :: 0 <= k < |words| ==> IsWord(words[k])
    ensures Tokens(Join(words, " ")) == words
    decreases |words|
  {
    if |words| == 0 {
    } else if |words| == 1 {
      WordTokens(words[0]);
    } else {
      var rest := Join(words[1..], " ");
      assert Join(words, " ") == words[0] + (" " + rest);
      TokensAppend(words[0], " " + rest);
      assert (" " + rest)[1..] == rest;
      WordTokens(words[0]);
      TokensOfWords(words[1..]);
    }
  }

  /** Tokens of `indent + core + end`, where `indent` and `end` are separators only. */
  lemma TokensFramed(indent: string, core: string, end: string)
    requires |indent| > 0 && forall i :: 0 <= i < |indent| ==> IsSeparator(indent[i])
    requires |end| > 0 && forall i :: 0 <= i < |end| ==> IsSeparator(end[i])
    ensures Tokens(indent + core + end) == Tokens(core)
  {
    AppendAssoc(indent, core, end);
    TokensAppend(indent, core + end);
    SeparatorTokens(indent);
    SeparatorTokens(end);
    if |core| == 0 {
      EmptyAppend(core, end);
    } else {
      TokensAppend(core, end);
    }
  }
}
