/** Reading back what `contents` writes: for every well-formed descriptor, parsing its text under its
    own ordering yields the descriptor with the items as that ordering emits them, and under
    `NATURAL_PRESERVE_COMMENTS` the descriptor itself. */
module ModuleInfoRoundTrip {
  import opened Wrappers
  import opened Text
  import opened ModuleInfoItem
  import opened ModuleInfoOrdering
  import opened ModuleInfoDescriptor
  import opened ModuleInfoParser
  import opened Sorting

  /** A descriptor whose text can be read back: its name is a name, its description fits on one line
      and every clause is well-formed. */
  predicate WellFormedDescriptor(d: Descriptor) {
    && IsName(d.name)
    && (d.description.Some? ==> '\n' !in d.description.value)
    && forall k :: 0 <= k < |d.items| ==> WellFormed(d.items[k])
  }

  // ---------------------------------------------------------------- single lines

  /** Visible text on a clause line before its closing `,` or `;`. */
  predicate CodeBody(body: string) {
    |body| > 0 && !IsSpace(body[0]) && body[0] != '/' && '/' !in body && '\n' !in body
  }

  /** A line that starts a statement: neither blank, a comment nor the closing brace. */
  predicate StartLine(line: string) {
    !IsClosingBrace(line) && |Trim(line)| > 0 && !StartsWith(Trim(line), "//")
  }

  /** A line that fits in the text without a line break and opens no block comment. */
  predicate PlainLine(line: string) {
    '\n' !in line && !HasInnerComment(line)
  }

  /** The lines of one statement as the parser meets them: the first one starts a statement, none
      opens a block comment, and only the last one ends the statement. */
  predicate StatementShaped(lines: seq<string>) {
    && |lines| > 0
    && StartLine(lines[0])
    && (forall k :: 0 <= k < |lines| ==> PlainLine(lines[k]))
    && (forall k :: 0 <= k < |lines| - 1 ==> !EndsStatement(lines[k]))
    && EndsStatement(lines[|lines| - 1])
  }

  lemma NameIsCodeBody(name: string)
    requires IsName(name)
    ensures CodeBody(name)
  {
    assert !IsSeparator(name[0]);
    assert '\n' !in name by {
      forall i | 0 <= i < |name|
        ensures name[i] != '\n'
      {
        assert !IsSeparator(name[i]);
      }
    }
  }

  lemma CodeLineTrim(indent: string, body: string, end: string)
    requires indent == Indent || indent == ContinuationIndent
    requires CodeBody(body)
    requires end == "," || end == ";"
    ensures Trim(indent + body + end) == body + end
  {
    assert AllSpace(indent);
    assert indent + body + end == indent + (body + end);
    TrimIndented(indent, body + end);
  }

  lemma CodeLineChars(indent: string, body: string, end: string)
    requires indent == Indent || indent == ContinuationIndent
    requires CodeBody(body)
    requires end == "," || end == ";"
    ensures '\n' !in indent + body + end && !HasInnerComment(indent + body + end)
  {
    var l := indent + body + end;
    forall i | 0 <= i < |l|
      ensures l[i] != '/' && l[i] != '\n'
    {
      if i >= |indent| + |body| {
        assert l[i] == end[i - |indent| - |body|];
      } else if i >= |indent| {
        assert l[i] == body[i - |indent|];
      }
    }
  }

  lemma CodeLineEnd(indent: string, body: string, end: string)
    requires end == "," || end == ";"
    ensures EndsStatement(indent + body + end) <==> end == ";"
  {
    var l := indent + body + end;
    TrimRightVisible(l);
    assert l[|l| - 1] == end[0];
  }

  lemma CodeLineTokens(indent: string, body: string, end: string)
    requires indent == Indent || indent == ContinuationIndent
    requires end == "," || end == ";"
    ensures Tokens(indent + body + end) == Tokens(body)
  {
    TokensFramed(indent, body, end);
  }

  lemma StartLineOf(line: string, core: string)
    requires Trim(line) == core && |core| >= 2 && core[0] != '/'
    ensures StartLine(line)
  {
  }

  /** One clause line: indentation, the visible body, and `,` or `;`. */
  lemma CodeLine(indent: string, body: string, end: string)
    requires indent == Indent || indent == ContinuationIndent
    requires CodeBody(body)
    requires end == "," || end == ";"
    ensures StartLine(indent + body + end) && PlainLine(indent + body + end)
    ensures EndsStatement(indent + body + end) <==> end == ";"
    ensures Tokens(indent + body + end) == Tokens(body)
  {
    CodeLineTrim(indent, body, end);
    assert (body + end)[0] == body[0];
    StartLineOf(indent + body + end, body + end);
    CodeLineChars(indent, body, end);
    CodeLineEnd(indent, body, end);
    CodeLineTokens(indent, body, end);
  }

  /** A line that starts the statement but does not end it, followed by a shaped statement. */
  lemma ShapedCons(first: string, tail: seq<string>)
    requires StartLine(first) && PlainLine(first) && !EndsStatement(first)
    requires StatementShaped(tail)
    ensures StatementShaped([first] + tail)
  {
    var ls := [first] + tail;
    forall k | 0 <= k < |ls|
      ensures PlainLine(ls[k]) && (k < |ls| - 1 ==> !EndsStatement(ls[k]))
    {
      if k > 0 {
        assert ls[k] == tail[k - 1];
      }
    }
  }

  lemma ShapedSingle(line: string)
    requires StartLine(line) && PlainLine(line) && EndsStatement(line)
    ensures StatementShaped([line])
  {
  }

  lemma ContinuedLinesNil(line: string, rest: seq<string>)
    requires |rest| == 0
    ensures ContinuedLines(line, rest) == [line + ";"]
  {
  }

  lemma ContinuedLinesCons(line: string, rest: seq<string>)
    requires |rest| > 0
    ensures ContinuedLines(line, rest) == [line + ","] + ContinuedLines(ContinuationIndent + rest[0], rest[1..])
  {
  }

  lemma StatementTokensCons(first: string, tail: seq<string>)
    ensures StatementTokens([first] + tail) == Tokens(first) + StatementTokens(tail)
  {
    assert ([first] + tail)[1..] == tail;
  }

  lemma HeadTail<T>(prefix: seq<T>, s: seq<T>)
    requires |s| > 0
    ensures prefix + ([s[0]] + s[1..]) == prefix + s
  {
  }

  /** The lines `ContinuedLines` produces form one statement ... */
  lemma {:induction false} ContinuedLinesShape(indent: string, body: string, rest: seq<string>)
    requires indent == Indent || indent == ContinuationIndent
    requires CodeBody(body)
    requires forall k :: 0 <= k < |rest| ==> IsName(rest[k])
    ensures StatementShaped(ContinuedLines(indent + body, rest))
    decreases |rest|
  {
    if |rest| == 0 {
      CodeLine(indent, body, ";");
      ContinuedLinesNil(indent + body, rest);
      ShapedSingle(indent + body + ";");
    } else {
      CodeLine(indent, body, ",");
      NameIsCodeBody(rest[0]);
      ContinuedLinesShape(ContinuationIndent, rest[0], rest[1..]);
      ContinuedLinesCons(indent + body, rest);
      ShapedCons(indent + body + ",", ContinuedLines(ContinuationIndent + rest[0], rest[1..]));
    }
  }

  /** ... whose words are the first line's words followed by the continued names. */
  lemma {:induction false} ContinuedLinesTokens(indent: string, body: string, rest: seq<string>)
    requires indent == Indent || indent == ContinuationIndent
    requires CodeBody(body)
    requires forall k :: 0 <= k < |rest| ==> IsName(rest[k])
    ensures StatementTokens(ContinuedLines(indent + body, rest)) == Tokens(body) + rest
    decreases |rest|
  {
    if |rest| == 0 {
      CodeLine(indent, body, ";");
      StatementTokensCons(indent + body + ";", []);
    } else {
      CodeLine(indent, body, ",");
      NameIsCodeBody(rest[0]);
      ContinuedLinesTokens(ContinuationIndent, rest[0], rest[1..]);
      ContinuedLinesCons(indent + body, rest);
      StatementTokensCons(indent + body + ",", ContinuedLines(ContinuationIndent + rest[0], rest[1..]));
      WordTokens(rest[0]);
      HeadTail(Tokens(body), rest);
    }
  }

  /** Lower-case ASCII letters only, the alphabet of the keywords. */
  predicate Lowercase(w: string) {
    |w| > 0 && forall i :: 0 <= i < |w| ==> 'a' <= w[i] <= 'z'
  }

  lemma LowercaseIsName(w: string)
    requires Lowercase(w)
    ensures IsName(w)
  {
  }

  lemma KeywordIsName(k: Kind)
    ensures IsName(Keyword(k)) && IsName(QualifierWord(k))
  {
    match k
    case Requires => LowercaseIsName("requires"); LowercaseIsName("to");
    case Exports => LowercaseIsName("exports"); LowercaseIsName("to");
    case Opens => LowercaseIsName("opens"); LowercaseIsName("to");
    case Uses => LowercaseIsName("uses"); LowercaseIsName("to");
    case Provides => LowercaseIsName("provides"); LowercaseIsName("with");
  }

  lemma ModifiersAreNames()
    ensures IsName("transitive") && IsName("static") && IsName("module")
  {
    LowercaseIsName("transitive");
    LowercaseIsName("static");
    LowercaseIsName("module");
  }

  /** Names joined by spaces make a clause body the parser splits back into those names. */
  lemma WordsBody(words: seq<string>)
    requires |words| > 0
    requires forall k :: 0 <= k < |words| ==> IsName(words[k])
    ensures CodeBody(Join(words, " "))
    ensures Tokens(Join(words, " ")) == words
  {
    var body := Join(words, " ");
    JoinStarts(words, " ");
    assert !IsSeparator(words[0][0]);
    forall k | 0 <= k < |words|
      ensures '/' !in words[k] && '\n' !in words[k]
    {
      NameIsCodeBody(words[k]);
    }
    JoinChars(words, " ", '/');
    JoinChars(words, " ", '\n');
    TokensOfWords(words);
  }

  /** The words written on a clause's first line. */
  function FirstLineWords(it: Item): seq<string> {
    if |it.withOrTo| == 0 then HeadWords(it) else HeadWords(it) + [QualifierWord(it.kind), it.withOrTo[0]]
  }

  lemma FirstLineNames(it: Item)
    requires WellFormed(it)
    ensures |FirstLineWords(it)| > 0
    ensures forall k :: 0 <= k < |FirstLineWords(it)| ==> IsName(FirstLineWords(it)[k])
  {
    KeywordIsName(it.kind);
    ModifiersAreNames();
  }

  lemma ClauseLinesContinued(it: Item)
    ensures ClauseLines(it)
            == ContinuedLines(Indent + Join(FirstLineWords(it), " "), if |it.withOrTo| == 0 then [] else it.withOrTo[1..])
  {
  }

  /** The lines of a well-formed clause form one statement ... */
  lemma ClauseShape(it: Item)
    requires WellFormed(it)
    ensures StatementShaped(ClauseLines(it))
  {
    var first := FirstLineWords(it);
    var rest := if |it.withOrTo| == 0 then [] else it.withOrTo[1..];
    ClauseLinesContinued(it);
    FirstLineNames(it);
    WordsBody(first);
    ContinuedLinesShape(Indent, Join(first, " "), rest);
  }

  /** ... whose words are the clause's words. */
  lemma ClauseTokens(it: Item)
    requires WellFormed(it)
    ensures StatementTokens(ClauseLines(it)) == ClauseWords(it)
  {
    var first := FirstLineWords(it);
    var rest := if |it.withOrTo| == 0 then [] else it.withOrTo[1..];
    ClauseLinesContinued(it);
    FirstLineNames(it);
    WordsBody(first);
    ContinuedLinesTokens(Indent, Join(first, " "), rest);
    if |it.withOrTo| > 0 {
      assert it.withOrTo == [it.withOrTo[0]] + rest;
      assert first + rest == HeadWords(it) + ([QualifierWord(it.kind)] + it.withOrTo);
    } else {
      assert first + rest == HeadWords(it);
    }
  }

  // ---------------------------------------------------------------- the items

  /** A comment line is read as a comment: collected when the ordering keeps comments. */
  lemma ParseCommentLine(lines: seq<string>, keep: bool, comments: seq<string>, acc: seq<Item>)
    requires |lines| > 0 && IsCommentLine(lines[0])
    ensures ParseItems(lines, keep, comments, acc)
            == ParseItems(lines[1..], keep, if keep then comments + [lines[0]] else comments, acc)
  {
    var t := Trim(lines[0]);
    assert t[..2] == "//";
    assert t[0] == '/';
  }

  lemma ParseCommentStep(pcs: seq<string>, rest: seq<string>, keep: bool, comments: seq<string>, acc: seq<Item>)
    requires |pcs| > 0 && IsCommentLine(pcs[0])
    ensures ParseItems(pcs + rest, keep, comments, acc)
            == ParseItems(pcs[1..] + rest, keep, if keep then comments + [pcs[0]] else comments, acc)
  {
    assert (pcs + rest)[0] == pcs[0];
    assert (pcs + rest)[1..] == pcs[1..] + rest;
    ParseCommentLine(pcs + rest, keep, comments, acc);
  }

  /** Comment lines collect as precomments when the ordering keeps comments, and vanish otherwise. */
  lemma {:induction false} ParseCommentLines(pcs: seq<string>, rest: seq<string>, keep: bool,
                                             comments: seq<string>, acc: seq<Item>)
    requires forall k :: 0 <= k < |pcs| ==> IsCommentLine(pcs[k])
    ensures ParseItems(pcs + rest, keep, comments, acc)
            == ParseItems(rest, keep, if keep then comments + pcs else comments, acc)
    decreases |pcs|
  {
    if |pcs| > 0 {
      var next := if keep then comments + [pcs[0]] else comments;
      ParseCommentStep(pcs, rest, keep, comments, acc);
      ParseCommentLines(pcs[1..], rest, keep, next, acc);
      AppendFirst(comments, pcs);
    } else {
      EmptyAppend(pcs, rest);
      EmptyAppend(pcs, comments);
    }
  }

  /** The statement the parser cuts off the front of the lines is exactly the shaped one. */
  lemma StatementEnd(cl: seq<string>, rest: seq<string>)
    requires StatementShaped(cl)
    ensures FirstIndex(cl + rest, EndsStatement) == Some(|cl| - 1)
  {
    var lines := cl + rest;
    var n := |cl| - 1;
    assert lines[n] == cl[n];
    forall k | 0 <= k < n
      ensures !EndsStatement(lines[k])
    {
      assert lines[k] == cl[k];
    }
    FirstIndexAt(lines, EndsStatement, n);
  }

  /** A shaped statement holds no block comment, so it is read as the clause its words form. */
  lemma ShapedStatement(cl: seq<string>, comments: seq<string>)
    requires StatementShaped(cl)
    ensures ParseStatement(cl, comments)
            == match ParseClause(StatementTokens(cl), comments)
               case Some(it) => Success(it)
               case None => Failure(Malformed(ClauseText(cl[0])))
  {
    assert FirstIndex(cl, HasInnerComment) == None;
  }

  /** A clause's lines are read as that clause, carrying the collected comments. */
  lemma ParseClauseLines(it: Item, rest: seq<string>, keep: bool, comments: seq<string>, acc: seq<Item>)
    requires WellFormed(it)
    ensures ParseItems(ClauseLines(it) + rest, keep, comments, acc)
            == ParseItems(rest, keep, [], acc + [it.(precomments := comments)])
  {
    var cl := ClauseLines(it);
    var lines := cl + rest;
    var n := |cl| - 1;
    ClauseShape(it);
    ClauseTokens(it);
    ParseClauseWords(it, comments);
    StatementEnd(cl, rest);
    ShapedStatement(cl, comments);
    assert lines[0] == cl[0];
    assert StartLine(lines[0]);
    assert lines[..n + 1] == cl;
    assert lines[n + 1..] == rest;
  }

  lemma ParseItemLines(it: Item, rest: seq<string>, keep: bool, acc: seq<Item>)
    requires WellFormed(it)
    requires !keep ==> it.precomments == []
    ensures ParseItems(ItemLines(it, keep) + rest, keep, [], acc) == ParseItems(rest, keep, [], acc + [it])
  {
    var pcs := if keep then it.precomments else [];
    ItemLinesSplit(it, keep, rest);
    ParseCommentLines(pcs, ClauseLines(it) + rest, keep, [], acc);
    CollectedComments(it, keep);
    ParseClauseLines(it, rest, keep, if keep then [] + pcs else [], acc);
  }

  lemma ItemLinesSplit(it: Item, keep: bool, rest: seq<string>)
    ensures ItemLines(it, keep) + rest == (if keep then it.precomments else []) + (ClauseLines(it) + rest)
  {
  }

  /** The comments collected before a clause are its precomments. */
  lemma CollectedComments(it: Item, keep: bool)
    requires !keep ==> it.precomments == []
    ensures it.(precomments := if keep then [] + (if keep then it.precomments else []) else []) == it
  {
    EmptyPrefix(it.precomments);
  }

  /** The closing brace ends the list of clauses. */
  lemma ParseClosingBrace(tail: seq<string>, keep: bool, acc: seq<Item>)
    requires |tail| > 0 && IsClosingBrace(tail[0])
    ensures ParseItems(tail, keep, [], acc) == Success((acc, tail[1..]))
  {
  }

  lemma ItemsLinesCons(items: seq<Item>, keep: bool, tail: seq<string>)
    requires |items| > 0
    ensures ItemsLines(items, keep) + tail == ItemLines(items[0], keep) + (ItemsLines(items[1..], keep) + tail)
  {
  }

  /** One item's lines, then the rest. */
  lemma ParseItemsStep(items: seq<Item>, keep: bool, tail: seq<string>, acc: seq<Item>)
    requires |items| > 0 && WellFormed(items[0])
    requires !keep ==> items[0].precomments == []
    ensures ParseItems(ItemsLines(items, keep) + tail, keep, [], acc)
            == ParseItems(ItemsLines(items[1..], keep) + tail, keep, [], acc + [items[0]])
  {
    ItemsLinesCons(items, keep, tail);
    ParseItemLines(items[0], ItemsLines(items[1..], keep) + tail, keep, acc);
  }

  /** The lines of well-formed items, followed by the closing brace, are read back as those items. */
  lemma {:induction false} ParseItemsLines(items: seq<Item>, keep: bool, tail: seq<string>, acc: seq<Item>)
    requires forall k :: 0 <= k < |items| ==> WellFormed(items[k])
    requires !keep ==> forall k :: 0 <= k < |items| ==> items[k].precomments == []
    requires |tail| > 0 && IsClosingBrace(tail[0])
    ensures ParseItems(ItemsLines(items, keep) + tail, keep, [], acc) == Success((acc + items, tail[1..]))
    decreases |items|
  {
    if |items| == 0 {
      assert ItemsLines(items, keep) + tail == tail;
      ParseClosingBrace(tail, keep, acc);
      assert acc + items == acc;
    } else {
      ParseItemsLines(items[1..], keep, tail, acc + [items[0]]);
      ParseItemsStep(items, keep, tail, acc);
      AppendFirst(acc, items);
    }
  }

  lemma ItemLinesNoBreak(it: Item, keep: bool)
    requires WellFormed(it)
    ensures NoBreaks(ItemLines(it, keep))
  {
    ClauseShape(it);
    assert NoBreaks(if keep then it.precomments else []);
    NoBreaksAppend(if keep then it.precomments else [], ClauseLines(it));
  }

  lemma {:induction false} ItemsLinesNoBreak(items: seq<Item>, keep: bool)
    requires forall k :: 0 <= k < |items| ==> WellFormed(items[k])
    ensures NoBreaks(ItemsLines(items, keep))
    decreases |items|
  {
    if |items| > 0 {
      ItemLinesNoBreak(items[0], keep);
      ItemsLinesNoBreak(items[1..], keep);
      NoBreaksAppend(ItemLines(items[0], keep), ItemsLines(items[1..], keep));
    }
  }

  /** Sorting the qualifier list keeps a clause well-formed. */
  lemma SortedQualifiersWellFormed(it: Item)
    requires WellFormed(it)
    ensures WellFormed(WithSortedQualifiers(it))
  {
    if it.kind == Exports || it.kind == Opens {
      var q := it.withOrTo;
      var sq := SortStrings(q);
      assert multiset(sq) == multiset(q);
      forall j | 0 <= j < |sq|
        ensures IsName(sq[j])
      {
        assert sq[j] in multiset(q);
      }
    }
  }

  lemma SortedEmittedWellFormed(items: seq<Item>, order: seq<Kind>, k: int)
    requires forall k :: 0 <= k < |items| ==> WellFormed(items[k])
    requires 0 <= k < |items|
    ensures WellFormed(EmittedItems(items, Sorted(order))[k])
  {
    var r := EmittedItems(items, Sorted(order));
    var prepared := seq(|items|, i requires 0 <= i < |items| => WithSortedQualifiers(items[i]));
    assert r[k] in multiset(prepared);
    var i :| 0 <= i < |prepared| && prepared[i] == r[k];
    SortedQualifiersWellFormed(items[i]);
  }

  /** The emitted items of a well-formed descriptor are well-formed, and carry no comments when the
      ordering drops them. */
  lemma EmittedWellFormed(items: seq<Item>, o: Ordering)
    requires forall k :: 0 <= k < |items| ==> WellFormed(items[k])
    ensures var r := EmittedItems(items, o);
      && (forall k :: 0 <= k < |r| ==> WellFormed(r[k]))
      && (!KeepsComments(o) ==> forall k :: 0 <= k < |r| ==> r[k].precomments == [])
  {
    var r := EmittedItems(items, o);
    if o.Sorted? {
      forall k | 0 <= k < |r|
        ensures WellFormed(r[k])
      {
        SortedEmittedWellFormed(items, o.kindOrder, k);
      }
    }
  }

  // ---------------------------------------------------------------- the descriptor

  lemma NoBreakAppend(a: string, b: string)
    requires '\n' !in a && '\n' !in b
    ensures '\n' !in a + b
  {
  }

  lemma MarkerOpeningNoBreak()
    ensures '\n' !in "// @io.helidon.common.Generated(value = \""
  {
  }

  lemma GeneratorTypeNoBreak()
    ensures '\n' !in GeneratorType
  {
  }

  lemma GeneratedMarkerNoBreak()
    ensures '\n' !in GeneratedMarker
  {
    var open := "// @io.helidon.common.Generated(value = \"";
    var sep := "\", trigger = \"";
    var close := "\")";
    MarkerOpeningNoBreak();
    GeneratorTypeNoBreak();
    assert '\n' !in sep && '\n' !in close;
    NoBreakAppend(open, GeneratorType);
    NoBreakAppend(open + GeneratorType, sep);
    NoBreakAppend(open + GeneratorType + sep, GeneratorType);
    NoBreakAppend(open + GeneratorType + sep + GeneratorType, close);
  }

  lemma FramedEnds(open: string, middle: string, close: string)
    requires |open| >= 2 && open[0] == '/' && open[1] == '/'
    requires |close| >= 2 && close[|close| - 1] == ')'
    ensures var s := open + middle + close;
      |s| > 3 && s[0] == '/' && s[1] == '/' && s[|s| - 1] == ')'
  {
  }

  lemma GeneratedMarkerEnds()
    ensures |GeneratedMarker| > 3
    ensures GeneratedMarker[0] == '/' && GeneratedMarker[1] == '/' && GeneratedMarker[|GeneratedMarker| - 1] == ')'
  {
    var open := "// @io.helidon.common.Generated(value = \"";
    var close := "\")";
    assert GeneratedMarker == open + (GeneratorType + "\", trigger = \"" + GeneratorType) + close;
    FramedEnds(open, GeneratorType + "\", trigger = \"" + GeneratorType, close);
  }

  /** A line that starts with `//` and ends visibly is its own trim and reads as a comment. */
  lemma CommentLineShape(line: string)
    requires |line| > 3 && line[0] == '/' && line[1] == '/' && !IsSpace(line[|line| - 1])
    ensures Trim(line) == line && IsComment(line) && !IsBlank(line) && line != "/**"
  {
    TrimVisible(line);
    StartsWithPair(line, '/', '/');
    assert |line| != |"/**"|;
  }

  /** The generated-file marker is one line the parser skips as a comment. */
  lemma GeneratedMarkerShape()
    ensures Trim(GeneratedMarker) == GeneratedMarker
    ensures IsComment(GeneratedMarker) && !IsBlank(GeneratedMarker) && GeneratedMarker != "/**"
    ensures '\n' !in GeneratedMarker
  {
    GeneratedMarkerEnds();
    CommentLineShape(GeneratedMarker);
    GeneratedMarkerNoBreak();
  }

  lemma ModuleLineTrim(name: string)
    requires IsName(name)
    ensures var line := "module " + name + " {";
      Trim(line) == line && !IsBlank(line) && !IsComment(line) && line != "/**"
  {
    var line := "module " + name + " {";
    assert line[0] == 'm' && line[1] == 'o' && line[|line| - 1] == '{';
    TrimVisible(line);
    StartsWithPair(line, 'm', 'o');
  }

  lemma ModuleLineTokens(name: string)
    requires IsName(name)
    ensures ModuleName("module " + name + " {") == Some(name)
  {
    ModifiersAreNames();
    assert Join(["{"], " ") == "{";
    assert Join([name, "{"], " ") == name + " " + "{";
    assert Join(["module", name, "{"], " ") == "module " + name + " {";
    assert IsWord("{");
    TokensOfWords(["module", name, "{"]);
  }

  /** The `module <name> {` line is one line the parser reads as the declaration of `name`. */
  lemma ModuleLineShape(name: string)
    requires IsName(name)
    ensures var line := "module " + name + " {";
      && Trim(line) == line && !IsBlank(line) && !IsComment(line) && line != "/**"
      && '\n' !in line && ModuleName(line) == Some(name)
  {
    ModuleLineTrim(name);
    ModuleLineTokens(name);
    ModuleLineNoBreak(name);
  }

  lemma ModuleLineNoBreak(name: string)
    requires IsName(name)
    ensures '\n' !in "module " + name + " {"
  {
    NameIsCodeBody(name);
    assert '\n' !in "module ";
    assert '\n' !in " {";
    NoBreakAppend("module ", name);
    NoBreakAppend("module " + name, " {");
  }

  /** Lines none of which holds a line break. */
  predicate NoBreaks(lines: seq<string>) {
    forall k :: 0 <= k < |lines| ==> '\n' !in lines[k]
  }

  lemma NoBreaksAppend(a: seq<string>, b: seq<string>)
    requires NoBreaks(a) && NoBreaks(b)
    ensures NoBreaks(a + b)
  {
    forall k | 0 <= k < |a + b|
      ensures '\n' !in (a + b)[k]
    {
      if k >= |a| {
        assert (a + b)[k] == b[k - |a|];
      }
    }
  }

  lemma DescriptionNoBreak(description: Option<string>)
    requires description.Some? ==> '\n' !in description.value
    ensures NoBreaks(DescriptionLines(description))
  {
    if description.Some? {
      assert '\n' !in " * ";
      NoBreakAppend(" * ", description.value);
    }
  }

  lemma DescriptorLinesNoBreak(d: Descriptor, includeGenerated: bool)
    requires WellFormedDescriptor(d)
    ensures NoBreaks(DescriptorLines(d, includeGenerated))
  {
    var keep := KeepsComments(d.ordering);
    var itemLines := ItemsLines(EmittedItems(d.items, d.ordering), keep);
    var moduleLine := "module " + d.name + " {";
    var marker := if includeGenerated then [GeneratedMarker] else [];
    var head := DescriptionLines(d.description) + marker;
    assert NoBreaks(itemLines) by {
      EmittedWellFormed(d.items, d.ordering);
      ItemsLinesNoBreak(EmittedItems(d.items, d.ordering), keep);
    }
    assert NoBreaks([moduleLine]) by {
      ModuleLineNoBreak(d.name);
    }
    assert NoBreaks(marker) by {
      GeneratedMarkerNoBreak();
    }
    assert NoBreaks(head) by {
      DescriptionNoBreak(d.description);
      NoBreaksAppend(DescriptionLines(d.description), marker);
    }
    NoBreaksAppend([moduleLine], itemLines);
    assert NoBreaks(["}"]);
    NoBreaksAppend([moduleLine] + itemLines, ["}"]);
    assert BodyLines(d) == [moduleLine] + itemLines + ["}"];
    NoBreaksAppend(head, BodyLines(d));
  }

  /** The description block is taken off the front of the lines, and nothing is when there is none. */
  lemma SplitRendered(description: Option<string>, rest: seq<string>)
    requires |rest| > 0 && rest[0] != "/**"
    ensures SplitDescription(DescriptionLines(description) + rest) == (description, rest)
  {
    var lines := DescriptionLines(description) + rest;
    if description.Some? {
      var text := description.value;
      assert lines[0] == "/**" && lines[1] == " * " + text && lines[2] == " */";
      assert (" * " + text)[3..] == text;
      assert lines[3..] == rest;
    } else {
      assert lines == rest;
    }
  }

  lemma SkipHeaderStops(body: seq<string>)
    requires |body| > 0 && !IsBlank(body[0]) && !IsComment(body[0])
    ensures SkipHeader(body) == body
  {
  }

  lemma SkipHeaderMarker(body: seq<string>)
    requires |body| > 0 && !IsBlank(body[0]) && !IsComment(body[0])
    ensures SkipHeader([GeneratedMarker] + body) == body
  {
    var lines := [GeneratedMarker] + body;
    assert IsComment(GeneratedMarker) && !IsBlank(GeneratedMarker) by {
      GeneratedMarkerShape();
    }
    assert lines[0] == GeneratedMarker;
    assert lines[1..] == body;
    SkipHeaderStops(body);
  }

  /** The generated-file marker, when present, is skipped up to the declaration line. */
  lemma SkipRendered(includeGenerated: bool, body: seq<string>)
    requires |body| > 0 && !IsBlank(body[0]) && !IsComment(body[0])
    ensures SkipHeader((if includeGenerated then [GeneratedMarker] else []) + body) == body
  {
    if includeGenerated {
      SkipHeaderMarker(body);
    } else {
      assert [] + body == body;
      SkipHeaderStops(body);
    }
  }

  lemma TrimClosingBrace()
    ensures IsClosingBrace("}")
  {
    TrimIndented("", "}");
    assert "" + "}" == "}";
  }

  lemma ClosingBraceTail(tail: seq<string>)
    requires tail == ["}"]
    ensures |tail| == 1 && IsClosingBrace(tail[0]) && tail[1..] == []
  {
    assert tail[0] == "}";
    TrimClosingBrace();
  }

  lemma EmptyPrefix<T>(s: seq<T>)
    ensures [] + s == s
  {
  }


  /** The clause lines and the closing brace are read back as the items. */
  lemma ParseRenderedItems(items: seq<Item>, keep: bool, tail: seq<string>)
    requires forall k :: 0 <= k < |items| ==> WellFormed(items[k])
    requires !keep ==> forall k :: 0 <= k < |items| ==> items[k].precomments == []
    requires |tail| == 1 && IsClosingBrace(tail[0]) && tail[1..] == []
    ensures ParseItems(ItemsLines(items, keep) + tail, keep, [], []) == Success((items, []))
  {
    ParseItemsLines(items, keep, tail, []);
    EmptyPrefix(items);
  }

  /** How `ParseLines` reads a text once each of its stages is known. */
  lemma ParseLinesStages(lines: seq<string>, ordering: Ordering, description: Option<string>,
                         afterDescription: seq<string>, body: seq<string>, name: string, items: seq<Item>)
    requires SplitDescription(lines) == (description, afterDescription)
    requires SkipHeader(afterDescription) == body
    requires |body| > 0 && ModuleName(body[0]) == Some(name)
    requires ParseItems(body[1..], KeepsComments(ordering), [], []) == Success((items, []))
    ensures ParseLines(lines, ordering) == Success(Descriptor(name, description, ordering, items))
  {
  }

  /** The pieces `DescriptorLines` is assembled from. */
  lemma DescriptorLinesPieces(d: Descriptor, includeGenerated: bool)
    ensures DescriptorLines(d, includeGenerated)
            == DescriptionLines(d.description) + ((if includeGenerated then [GeneratedMarker] else []) + BodyLines(d))
  {
  }

  lemma DropHead<T>(head: seq<T>, middle: seq<T>, tail: seq<T>)
    requires |head| == 1
    ensures (head + middle + tail)[0] == head[0]
    ensures (head + middle + tail)[1..] == middle + tail
  {
  }

  lemma HeaderStart(includeGenerated: bool, body: seq<string>, name: string)
    requires |body| > 0 && body[0] == "module " + name + " {"
    ensures var marker := if includeGenerated then [GeneratedMarker] else [];
      |marker + body| > 0 && (marker + body)[0] != "/**"
  {
    var marker := if includeGenerated then [GeneratedMarker] else [];
    GeneratedMarkerEnds();
    assert body[0][0] == 'm';
    assert (marker + body)[0] == if includeGenerated then GeneratedMarker else body[0];
  }

  /** The header of an assembled text: description block, optional marker, declaration line. */
  lemma AssembledHeader(lines: seq<string>, description: Option<string>, includeGenerated: bool,
                        body: seq<string>, name: string)
    requires lines == DescriptionLines(description) + ((if includeGenerated then [GeneratedMarker] else []) + body)
    requires IsName(name) && |body| > 0 && body[0] == "module " + name + " {"
    ensures SplitDescription(lines) == (description, (if includeGenerated then [GeneratedMarker] else []) + body)
    ensures SkipHeader((if includeGenerated then [GeneratedMarker] else []) + body) == body
    ensures ModuleName(body[0]) == Some(name)
  {
    HeaderStart(includeGenerated, body, name);
    SplitRendered(description, (if includeGenerated then [GeneratedMarker] else []) + body);
    ModuleLineShape(name);
    SkipRendered(includeGenerated, body);
  }

  /** The clauses of an assembled text, after the declaration line. */
  lemma AssembledItems(body: seq<string>, name: string, items: seq<Item>, keep: bool, tail: seq<string>)
    requires body == ["module " + name + " {"] + ItemsLines(items, keep) + tail
    requires forall k :: 0 <= k < |items| ==> WellFormed(items[k])
    requires !keep ==> forall k :: 0 <= k < |items| ==> items[k].precomments == []
    requires |tail| == 1 && IsClosingBrace(tail[0]) && tail[1..] == []
    ensures |body| > 0 && body[0] == "module " + name + " {"
    ensures ParseItems(body[1..], keep, [], []) == Success((items, []))
  {
    DropHead(["module " + name + " {"], ItemsLines(items, keep), tail);
    ParseRenderedItems(items, keep, tail);
  }

  /** The lines `contents` is joined from are read back as the descriptor with its emitted items. */
  lemma ParseDescriptorLines(d: Descriptor, includeGenerated: bool)
    requires WellFormedDescriptor(d)
    ensures ParseLines(DescriptorLines(d, includeGenerated), d.ordering)
            == Success(d.(items := EmittedItems(d.items, d.ordering)))
  {
    var e := EmittedItems(d.items, d.ordering);
    DescriptorLinesPieces(d, includeGenerated);
    EmittedWellFormed(d.items, d.ordering);
    ClosingBraceTail(["}"]);
    AssembledItems(BodyLines(d), d.name, e, KeepsComments(d.ordering), ["}"]);
    AssembledHeader(DescriptorLines(d, includeGenerated), d.description, includeGenerated, BodyLines(d), d.name);
    ParseLinesStages(DescriptorLines(d, includeGenerated), d.ordering, d.description,
                     (if includeGenerated then [GeneratedMarker] else []) + BodyLines(d), BodyLines(d), d.name, e);
  }

  /** Parsing the text `contents` writes, under the descriptor's own ordering, gives back the
      descriptor with its items in emitted form; with or without the generated-file marker. */
  lemma RoundTrip(d: Descriptor, includeGenerated: bool)
    requires WellFormedDescriptor(d)
    ensures Create(Contents(d, includeGenerated), d.ordering)
            == Success(d.(items := EmittedItems(d.items, d.ordering)))
  {
    DescriptorLinesNoBreak(d, includeGenerated);
    LinesOfJoin(DescriptorLines(d, includeGenerated));
    ParseDescriptorLines(d, includeGenerated);
  }

  /** Under `NATURAL_PRESERVE_COMMENTS` the round trip is exact in both directions: the descriptor
      comes back, and so does its text. */
  lemma RoundTripPreservingComments(d: Descriptor)
    requires WellFormedDescriptor(d) && d.ordering == NaturalPreserveComments
    ensures Create(Contents(d, false), NaturalPreserveComments) == Success(d)
    ensures Contents(Create(Contents(d, false), NaturalPreserveComments).value, false) == Contents(d, false)
  {
    RoundTrip(d, false);
    assert d.(items := d.items) == d;
  }

  /** Under every ordering, writing out what was read back gives the same text again. */
  lemma ReparseStable(d: Descriptor, includeGenerated: bool)
    requires WellFormedDescriptor(d)
    ensures Create(Contents(d, includeGenerated), d.ordering).Success?
    ensures Contents(Create(Contents(d, includeGenerated), d.ordering).value, includeGenerated)
            == Contents(d, includeGenerated)
  {
    RoundTrip(d, includeGenerated);
    EmittedIdempotent(d.items, d.ordering);
  }
}
