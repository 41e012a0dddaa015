/** Reading a module declaration's text back into a descriptor (`ModuleInfoDescriptor.create`), and the
    proof that reading what `contents` writes gives back the descriptor. */
module ModuleInfoParser {
  import opened Wrappers
  import opened Text
  import opened ModuleInfoItem
  import opened ModuleInfoOrdering
  import opened ModuleInfoDescriptor

  // ---------------------------------------------------------------- line classes

  predicate IsBlank(line: string) {
    |Trim(line)| == 0
  }

  predicate IsComment(line: string) {
    StartsWith(Trim(line), "//")
  }

  /** A line holding the start of a block comment. */
  predicate HasInnerComment(line: string) {
    ContainsPair(line, '/', '*')
  }

  /** The line closing the declaration: `}` once trimmed. */
  predicate IsClosingBrace(line: string) {
    var t := Trim(line);
    |t| == 1 && t[0] == '}'
  }

  /** A statement ends on the line whose last visible character is `;`. */
  predicate EndsStatement(line: string) {
    var t := TrimRight(line);
    |t| > 0 && t[|t| - 1] == ';'
  }

  /** A trimmed line without its closing `;`. */
  function ClauseText(line: string): string {
    var t := Trim(line);
    if |t| > 0 && t[|t| - 1] == ';' then t[..|t| - 1] else t
  }

  // ---------------------------------------------------------------- header

  /** Takes the three-line description block that `contents` writes off the front of the text. */
  function SplitDescription(lines: seq<string>): (Option<string>, seq<string>) {
    if |lines| >= 3 && lines[0] == "/**" && StartsWith(lines[1], " * ") && lines[2] == " */"
    then (Some(lines[1][3..]), lines[3..])
    else (None, lines)
  }

  /** Skips the blank and `//` lines before the declaration, the generated-file marker among them. */
  function SkipHeader(lines: seq<string>): (r: seq<string>)
    ensures |r| <= |lines| && r == lines[|lines| - |r|..]
    ensures |r| > 0 ==> !IsBlank(r[0]) && !IsComment(r[0])
  {
    if |lines| > 0 && (IsBlank(lines[0]) || IsComment(lines[0])) then SkipHeader(lines[1..]) else lines
  }

  /** The name declared by a `module <name> {` line. */
  function ModuleName(line: string): Option<string> {
    var ts := Tokens(line);
    if |ts| == 3 && ts[0] == "module" && ts[2] == "{" then Some(ts[1]) else None
  }

  // ---------------------------------------------------------------- clauses

  /** The words of a statement that may run over several lines. */
  function StatementTokens(lines: seq<string>): seq<string> {
    if |lines| == 0 then [] else Tokens(lines[0]) + StatementTokens(lines[1..])
  }

  /** The words after `requires`: the modifiers, in either order, then the module name. */
  function ParseRequires(ts: seq<string>, isTransitive: bool, isStatic: bool, comments: seq<string>)
    : (r: Option<Item>)
    ensures r.Some? ==> r.value.kind == Requires && r.value.precomments == comments && |r.value.withOrTo| == 0
    ensures r.Some? ==> (isTransitive ==> r.value.transitive) && (isStatic ==> r.value.isStatic)
    ensures r.Some? ==> |ts| > 0 && r.value.target == ts[|ts| - 1]
    decreases |ts|
  {
    if |ts| == 1 && ts[0] != "transitive" && ts[0] != "static" then
      Some(Item(Requires, ts[0], isTransitive, isStatic, [], comments))
    else if |ts| > 1 && ts[0] == "transitive" then ParseRequires(ts[1..], true, isStatic, comments)
    else if |ts| > 1 && ts[0] == "static" then ParseRequires(ts[1..], isTransitive, true, comments)
    else None
  }

  /** The clause with the given words and precomments, if the words form one. */
  function ParseClause(ts: seq<string>, comments: seq<string>): (r: Option<Item>)
    ensures r.Some? ==> |ts| >= 2 && Keyword(r.value.kind) == ts[0] && r.value.precomments == comments
  {
    if |ts| < 2 then None
    else if ts[0] == "requires" then ParseRequires(ts[1..], false, false, comments)
    else if ts[0] == "uses" then
      if |ts| == 2 then Some(Item(Uses, ts[1], false, false, [], comments)) else None
    else if ts[0] == "exports" || ts[0] == "opens" || ts[0] == "provides" then
      var kind := if ts[0] == "exports" then Exports else if ts[0] == "opens" then Opens else Provides;
      if |ts| == 2 then Some(Item(kind, ts[1], false, false, [], comments))
      else if |ts| >= 4 && ts[2] == QualifierWord(kind) then Some(Item(kind, ts[1], false, false, ts[3..], comments))
      else None
    else None
  }

  /** One statement: refused when a line of it opens a block comment, otherwise read as a clause. */
  function ParseStatement(lines: seq<string>, comments: seq<string>): (r: Result<Item, Error>)
    requires |lines| > 0
    ensures (r.Failure? && r.error.InnerComment?) <==> exists k :: 0 <= k < |lines| && HasInnerComment(lines[k])
    ensures r.Failure? && r.error.InnerComment? ==>
              exists k :: 0 <= k < |lines| && HasInnerComment(lines[k]) && r.error.clause == ClauseText(lines[k])
    ensures r.Success? ==> r.value.precomments == comments
  {
    match FirstIndex(lines, HasInnerComment)
    case Some(k) => Failure(InnerComment(ClauseText(lines[k])))
    case None =>
      match ParseClause(StatementTokens(lines), comments)
      case Some(it) => Success(it)
      case None => Failure(Malformed(ClauseText(lines[0])))
  }

  /** The words of a well-formed clause are read back as that clause. */
  lemma ParseClauseWords(it: Item, comments: seq<string>)
    requires WellFormed(it)
    ensures ParseClause(ClauseWords(it), comments) == Some(it.(precomments := comments))
  {
    var ts := ClauseWords(it);
    if it.kind == Requires {
      assert it.withOrTo == [];
      var rest := ts[1..];
      if it.transitive && it.isStatic {
        assert ts == ["requires", "transitive", "static", it.target];
        assert rest == ["transitive", "static", it.target];
        assert rest[1..] == ["static", it.target];
        assert rest[1..][1..] == [it.target];
        assert ParseRequires(rest[1..][1..], true, true, comments) == Some(it.(precomments := comments));
        assert ParseRequires(rest[1..], true, false, comments) == Some(it.(precomments := comments));
      } else if it.transitive {
        assert ts == ["requires", "transitive", it.target];
        assert rest == ["transitive", it.target];
        assert rest[1..] == [it.target];
        assert ParseRequires(rest[1..], true, false, comments) == Some(it.(precomments := comments));
      } else if it.isStatic {
        assert rest == ["static", it.target];
        assert rest[1..] == [it.target];
        assert ParseRequires(rest[1..], false, true, comments) == Some(it.(precomments := comments));
      }
    } else if |it.withOrTo| > 0 {
      assert ts[3..] == it.withOrTo;
    }
  }

  // ---------------------------------------------------------------- descriptor

  /** Reads the clauses up to the closing brace. `comments` holds the comment lines read since the last
      clause; they become the next clause's precomments when the ordering keeps comments. Returns the
      items and the lines after the brace. */
  function ParseItems(lines: seq<string>, keepComments: bool, comments: seq<string>, acc: seq<Item>)
    : (r: Result<(seq<Item>, seq<string>), Error>)
    decreases |lines|
  {
    if |lines| == 0 then Failure(Malformed("}"))
    else
      var t := Trim(lines[0]);
      if IsClosingBrace(lines[0]) then Success((acc, lines[1..]))
      else if |t| == 0 then ParseItems(lines[1..], keepComments, comments, acc)
      else if StartsWith(t, "//") then
        ParseItems(lines[1..], keepComments, if keepComments then comments + [lines[0]] else comments, acc)
      else
        match FirstIndex(lines, EndsStatement)
        case None => Failure(Malformed(t))
        case Some(n) =>
          var item :- ParseStatement(lines[..n + 1], comments);
          ParseItems(lines[n + 1..], keepComments, [], acc + [item])
  }

  /** Reads a module declaration given as lines. */
  function ParseLines(lines: seq<string>, ordering: Ordering): Result<Descriptor, Error> {
    var (description, afterDescription) := SplitDescription(lines);
    var rest := SkipHeader(afterDescription);
    if |rest| == 0 then Failure(Malformed(""))
    else
      match ModuleName(rest[0])
      case None => Failure(Malformed(Trim(rest[0])))
      case Some(name) =>
        var parsed :- ParseItems(rest[1..], KeepsComments(ordering), [], []);
        if forall k :: 0 <= k < |parsed.1| ==> IsBlank(parsed.1[k])
        then Success(Descriptor(name, description, ordering, parsed.0))
        else Failure(Malformed("}"))
  }

  /** A line that is neither the closing brace nor the start of a statement. */
  predicate Skipped(line: string) {
    !IsClosingBrace(line) && (|Trim(line)| == 0 || StartsWith(Trim(line), "//"))
  }

  /** The precomments after reading a skipped line. */
  function CommentsAfter(line: string, keepComments: bool, comments: seq<string>): seq<string> {
    if |Trim(line)| > 0 && keepComments then comments + [line] else comments
  }

  /** A blank or `//` line is passed over, and kept as a precomment when comments are kept. */
  lemma ParseItemsSkipStep(lines: seq<string>, keepComments: bool, comments: seq<string>, acc: seq<Item>)
    requires |lines| > 0 && Skipped(lines[0])
    ensures ParseItems(lines, keepComments, comments, acc)
            == ParseItems(lines[1..], keepComments, CommentsAfter(lines[0], keepComments, comments), acc)
  {
  }

  /** A statement of `n + 1` lines is read as one clause, and reading goes on after it. */
  lemma ParseItemsStatementStep(lines: seq<string>, keepComments: bool, comments: seq<string>, acc: seq<Item>,
                                n: nat)
    requires |lines| > 0 && !IsClosingBrace(lines[0]) && !Skipped(lines[0])
    requires FirstIndex(lines, EndsStatement) == Some(n)
    ensures n < |lines|
    ensures var st := ParseStatement(lines[..n + 1], comments);
      ParseItems(lines, keepComments, comments, acc)
      == if st.Failure? then Failure(st.error)
         else ParseItems(lines[n + 1..], keepComments, [], acc + [st.value])
  {
  }

  /** Some line of `lines` opens a block comment and reads as `clause`. */
  predicate RefusedAt(lines: seq<string>, clause: string) {
    exists k :: 0 <= k < |lines| && HasInnerComment(lines[k]) && clause == ClauseText(lines[k])
  }

  lemma RefusedInSuffix(lines: seq<string>, m: nat, clause: string)
    requires m <= |lines| && RefusedAt(lines[m..], clause)
    ensures RefusedAt(lines, clause)
  {
    var k :| 0 <= k < |lines[m..]| && HasInnerComment(lines[m..][k]) && clause == ClauseText(lines[m..][k]);
    assert lines[m + k] == lines[m..][k];
  }

  lemma RefusedInPrefix(lines: seq<string>, n: nat, clause: string)
    requires n <= |lines| && RefusedAt(lines[..n], clause)
    ensures RefusedAt(lines, clause)
  {
    var k :| 0 <= k < |lines[..n]| && HasInnerComment(lines[..n][k]) && clause == ClauseText(lines[..n][k]);
    assert lines[k] == lines[..n][k];
  }

  /** A clause is refused for a block comment only when one of the lines read holds one, and the error
      names that line. */
  lemma {:induction false} ParseItemsInnerComment(lines: seq<string>, keepComments: bool, comments: seq<string>,
                                                  acc: seq<Item>)
    ensures var r := ParseItems(lines, keepComments, comments, acc);
      r.Failure? && r.error.InnerComment? ==> RefusedAt(lines, r.error.clause)
    decreases |lines|
  {
    if |lines| > 0 && !IsClosingBrace(lines[0]) {
      if Skipped(lines[0]) {
        var comments' := CommentsAfter(lines[0], keepComments, comments);
        ParseItemsSkipStep(lines, keepComments, comments, acc);
        ParseItemsInnerComment(lines[1..], keepComments, comments', acc);
        var r := ParseItems(lines[1..], keepComments, comments', acc);
        if r.Failure? && r.error.InnerComment? {
          RefusedInSuffix(lines, 1, r.error.clause);
        }
      } else if n :| FirstIndex(lines, EndsStatement) == Some(n) {
        ParseItemsStatementStep(lines, keepComments, comments, acc, n);
        var st := ParseStatement(lines[..n + 1], comments);
        if st.Failure? {
          if st.error.InnerComment? {
            assert RefusedAt(lines[..n + 1], st.error.clause);
            RefusedInPrefix(lines, n + 1, st.error.clause);
          }
        } else {
          ParseItemsInnerComment(lines[n + 1..], keepComments, [], acc + [st.value]);
          var r := ParseItems(lines[n + 1..], keepComments, [], acc + [st.value]);
          if r.Failure? && r.error.InnerComment? {
            RefusedInSuffix(lines, n + 1, r.error.clause);
          }
        }
      }
    }
  }

  /** Without comment keeping, no clause read carries precomments. */
  lemma {:induction false} ParseItemsDropsComments(lines: seq<string>, acc: seq<Item>)
    requires forall i :: 0 <= i < |acc| ==> acc[i].precomments == []
    ensures var r := ParseItems(lines, false, [], acc);
      r.Success? ==> forall i :: 0 <= i < |r.value.0| ==> r.value.0[i].precomments == []
    decreases |lines|
  {
    if |lines| > 0 && !IsClosingBrace(lines[0]) {
      if Skipped(lines[0]) {
        ParseItemsSkipStep(lines, false, [], acc);
        ParseItemsDropsComments(lines[1..], acc);
      } else if n :| FirstIndex(lines, EndsStatement) == Some(n) {
        ParseItemsStatementStep(lines, false, [], acc, n);
        var st := ParseStatement(lines[..n + 1], []);
        if st.Success? {
          var acc' := acc + [st.value];
          assert forall i :: 0 <= i < |acc'| ==> acc'[i].precomments == [];
          ParseItemsDropsComments(lines[n + 1..], acc');
        }
      }
    }
  }

  /** The lines `ParseLines` hands to `ParseItems`: those after the `module` line, a suffix of the text. */
  function BodyOf(lines: seq<string>): (r: seq<string>)
    ensures |r| <= |lines| && r == lines[|lines| - |r|..]
  {
    var rest := SkipHeader(SplitDescription(lines).1);
    if |rest| == 0 then [] else rest[1..]
  }

  /** A refusal of `ParseLines` for a block comment is a refusal of its clauses. */
  lemma ParseLinesItems(lines: seq<string>, ordering: Ordering)
    ensures var r := ParseLines(lines, ordering);
      r.Failure? && r.error.InnerComment? ==>
        var p := ParseItems(BodyOf(lines), KeepsComments(ordering), [], []);
        p.Failure? && p.error == r.error
  {
  }

  /** The items of a successful `ParseLines` are those its clauses read. */
  lemma ParseLinesItemsRead(lines: seq<string>, ordering: Ordering)
    ensures var r := ParseLines(lines, ordering);
      r.Success? ==>
        var p := ParseItems(BodyOf(lines), KeepsComments(ordering), [], []);
        p.Success? && p.value.0 == r.value.items && r.value.ordering == ordering
  {
    var rest := SkipHeader(SplitDescription(lines).1);
    if |rest| > 0 && ModuleName(rest[0]).Some? {
      assert BodyOf(lines) == rest[1..];
      var p := ParseItems(rest[1..], KeepsComments(ordering), [], []);
      if p.Success? {
        var name := ModuleName(rest[0]).value;
        var description := SplitDescription(lines).0;
        assert ParseLines(lines, ordering).Success? ==>
          ParseLines(lines, ordering) == Success(Descriptor(name, description, ordering, p.value.0));
      }
    }
  }

  /** A refusal for a block comment names a line of the text holding one. */
  lemma ParseLinesInnerComment(lines: seq<string>, ordering: Ordering)
    ensures var r := ParseLines(lines, ordering);
      r.Failure? && r.error.InnerComment? ==>
        exists k :: 0 <= k < |lines| && HasInnerComment(lines[k]) && r.error.clause == ClauseText(lines[k])
  {
    var r := ParseLines(lines, ordering);
    if r.Failure? && r.error.InnerComment? {
      var body := BodyOf(lines);
      ParseLinesItems(lines, ordering);
      ParseItemsInnerComment(body, KeepsComments(ordering), [], []);
      RefusedInSuffix(lines, |lines| - |body|, r.error.clause);
    }
  }

  /** A success keeps the ordering, and reads no precomments under an ordering that drops them. */
  lemma ParseLinesSuccess(lines: seq<string>, ordering: Ordering)
    ensures var r := ParseLines(lines, ordering);
      && (r.Success? ==> r.value.ordering == ordering)
      && (r.Success? && !KeepsComments(ordering) ==>
            forall i :: 0 <= i < |r.value.items| ==> r.value.items[i].precomments == [])
  {
    ParseLinesItemsRead(lines, ordering);
    if !KeepsComments(ordering) {
      ParseItemsDropsComments(BodyOf(lines), []);
    }
  }

  /** `ModuleInfoDescriptor.create(text, ordering)`. */
  function Create(text: string, ordering: Ordering): (r: Result<Descriptor, Error>)
    ensures r.Success? ==> r.value.ordering == ordering
    ensures r.Success? && !KeepsComments(ordering) ==>
              forall i :: 0 <= i < |r.value.items| ==> r.value.items[i].precomments == []
    ensures r.Failure? && r.error.InnerComment? ==>
              exists k :: 0 <= k < |Lines(text)| && HasInnerComment(Lines(text)[k])
                          && r.error.clause == ClauseText(Lines(text)[k])
  {
    ParseLinesSuccess(Lines(text), ordering);
    ParseLinesInnerComment(Lines(text), ordering);
    ParseLines(Lines(text), ordering)
  }
}
