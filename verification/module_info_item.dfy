/** One clause of a module declaration (section 7.7 of the Java Language Specification): its kind,
    its target, the `transitive` / `static` modifiers of a `requires`, the `to` / `with` names, and the
    comment lines written above it. */
module ModuleInfoItem {
  import opened Text

  datatype Kind = Requires | Exports | Opens | Uses | Provides

  datatype Item = Item(
    kind: Kind,
    target: string,
    transitive: bool,
    isStatic: bool,
    withOrTo: seq<string>,   // `to` modules of exports / opens, `with` implementations of provides
    precomments: seq<string> // raw comment lines, indentation included
  )

  /** Indentation of a clause line. */
  const Indent := "    "

  /** Indentation of a `to` / `with` name wrapped onto its own line. */
  const ContinuationIndent := "\t\t\t"

  function Keyword(k: Kind): string {
    match k
    case Requires => "requires"
    case Exports => "exports"
    case Opens => "opens"
    case Uses => "uses"
    case Provides => "provides"
  }

  /** The word that introduces the qualifier list. */
  function QualifierWord(k: Kind): string {
    if k == Provides then "with" else "to"
  }

  // ---------------------------------------------------------------- well-formedness

  /** A module, package or type name: a word with no `/` (so no comment can start inside it) and no
      braces. */
  predicate IsName(s: string) {
    IsWord(s) && forall i :: 0 <= i < |s| ==> s[i] != '/' && s[i] != '{' && s[i] != '}'
  }

  /** A line the parser reads as a comment: after trimming it starts with `//`. */
  predicate IsCommentLine(line: string) {
    '\n' !in line && StartsWith(Trim(line), "//")
  }

  /** The clauses a module declaration can hold and a parser can read back: names are names, a
      `requires` target is not one of its modifiers, only `requires` carries modifiers, only exports,
      opens and provides carry qualifiers, and every precomment is one comment line. */
  predicate WellFormed(it: Item) {
    && IsName(it.target)
    && (it.kind == Requires ==> it.target != "transitive" && it.target != "static")
    && (it.kind != Requires ==> !it.transitive && !it.isStatic)
    && (it.kind == Requires || it.kind == Uses ==> |it.withOrTo| == 0)
    && (forall k :: 0 <= k < |it.withOrTo| ==> IsName(it.withOrTo[k]))
    && (forall k :: 0 <= k < |it.precomments| ==> IsCommentLine(it.precomments[k]))
  }

  // ---------------------------------------------------------------- rendering

  /** The words before the qualifier list: keyword, modifiers of a `requires`, target. */
  function HeadWords(it: Item): seq<string> {
    if it.kind == Requires then
      ["requires"]
      + (if it.transitive then ["transitive"] else [])
      + (if it.isStatic then ["static"] else [])
      + [it.target]
    else [Keyword(it.kind), it.target]
  }

  /** Every word of the clause, in order, without punctuation. */
  function ClauseWords(it: Item): seq<string> {
    HeadWords(it) + (if |it.withOrTo| == 0 then [] else [QualifierWord(it.kind)] + it.withOrTo)
  }

  /** `line` ends the clause with `;`, or continues with `,` and the next qualifier on a line of its
      own. */
  function ContinuedLines(line: string, rest: seq<string>): (r: seq<string>)
    ensures |r| == |rest| + 1
    decreases |rest|
  {
    if |rest| == 0 then [line + ";"]
    else [line + ","] + ContinuedLines(ContinuationIndent + rest[0], rest[1..])
  }

  /** The clause as it is written out: four spaces, the words separated by single spaces, the first
      qualifier on the clause's own line, every further one on a continuation line, and `;`. */
  function ClauseLines(it: Item): seq<string> {
    if |it.withOrTo| == 0 then ContinuedLines(Indent + Join(HeadWords(it), " "), [])
    else
      ContinuedLines(Indent + Join(HeadWords(it) + [QualifierWord(it.kind), it.withOrTo[0]], " "),
                     it.withOrTo[1..])
  }

  /** The lines of an item; its precomments come first when the ordering keeps them. */
  function ItemLines(it: Item, keepComments: bool): seq<string> {
    (if keepComments then it.precomments else []) + ClauseLines(it)
  }

  // ---------------------------------------------------------------- the written form of a clause

  /** A `uses`, or an `exports`, `opens` or `provides` without qualifiers, is written
      `    <keyword> <target>;`. */
  lemma PlainClauseLines(it: Item)
    requires it.kind != Requires && |it.withOrTo| == 0
    ensures ClauseLines(it) == [Indent + Keyword(it.kind) + " " + it.target + ";"]
  {
    assert HeadWords(it) == [Keyword(it.kind)] + [it.target];
    JoinSnoc(Indent, [Keyword(it.kind)], it.target, " ");
  }

  /** With one qualifier the clause stays on one line: `    exports <p> to <m>;`,
      `    provides <c> with <i>;`. */
  lemma QualifiedClauseLines(it: Item)
    requires it.kind != Requires && |it.withOrTo| == 1
    ensures ClauseLines(it)
            == [Indent + Keyword(it.kind) + " " + it.target + " " + QualifierWord(it.kind) + " " + it.withOrTo[0] + ";"]
  {
    var k := Keyword(it.kind);
    var q := QualifierWord(it.kind);
    var x := it.withOrTo[0];
    assert [k] + [it.target] == [k, it.target];
    JoinSnoc(Indent, [k], it.target, " ");
    assert [k, it.target] + [q] == [k, it.target, q];
    JoinSnoc(Indent, [k, it.target], q, " ");
    assert [k, it.target, q] + [x] == HeadWords(it) + [q, x];
    JoinSnoc(Indent, [k, it.target, q], x, " ");
  }

  /** A second qualifier goes on a continuation line of its own: the first line ends with `,`. */
  lemma ContinuedClauseLines(it: Item)
    requires it.kind != Requires && |it.withOrTo| == 2
    ensures ClauseLines(it)
            == [Indent + Keyword(it.kind) + " " + it.target + " " + QualifierWord(it.kind) + " " + it.withOrTo[0] + ",",
                ContinuationIndent + it.withOrTo[1] + ";"]
  {
    var k := Keyword(it.kind);
    var q := QualifierWord(it.kind);
    var x := it.withOrTo[0];
    assert [k] + [it.target] == [k, it.target];
    JoinSnoc(Indent, [k], it.target, " ");
    assert [k, it.target] + [q] == [k, it.target, q];
    JoinSnoc(Indent, [k, it.target], q, " ");
    assert [k, it.target, q] + [x] == HeadWords(it) + [q, x];
    JoinSnoc(Indent, [k, it.target, q], x, " ");
    var line := Indent + Join(HeadWords(it) + [q, x], " ");
    assert it.withOrTo[1..] == [it.withOrTo[1]];
    assert ClauseLines(it) == [line + ","] + ContinuedLines(ContinuationIndent + it.withOrTo[1], []);
  }

  lemma RequiresTransitiveStaticLine(it: Item)
    requires it.kind == Requires && |it.withOrTo| == 0 && it.transitive && it.isStatic
    ensures ClauseLines(it) == [Indent + "requires" + " transitive" + " static" + " " + it.target + ";"]
  {
    assert HeadWords(it) == ["requires", "transitive", "static"] + [it.target];
    assert ["requires"] + ["transitive"] == ["requires", "transitive"];
    JoinSnoc(Indent, ["requires"], "transitive", " ");
    assert ["requires", "transitive"] + ["static"] == ["requires", "transitive", "static"];
    JoinSnoc(Indent, ["requires", "transitive"], "static", " ");
    JoinSnoc(Indent, ["requires", "transitive", "static"], it.target, " ");
    AppendAssoc(Indent + "requires", " ", "transitive");
    AppendAssoc(Indent + "requires" + " transitive", " ", "static");
    assert " " + "transitive" == " transitive";
    assert " " + "static" == " static";
  }

  lemma RequiresTransitiveLine(it: Item)
    requires it.kind == Requires && |it.withOrTo| == 0 && it.transitive && !it.isStatic
    ensures ClauseLines(it) == [Indent + "requires" + " transitive" + " " + it.target + ";"]
  {
    assert HeadWords(it) == ["requires", "transitive"] + [it.target];
    assert ["requires"] + ["transitive"] == ["requires", "transitive"];
    JoinSnoc(Indent, ["requires"], "transitive", " ");
    JoinSnoc(Indent, ["requires", "transitive"], it.target, " ");
    AppendAssoc(Indent + "requires", " ", "transitive");
    assert " " + "transitive" == " transitive";
  }

  lemma RequiresStaticLine(it: Item)
    requires it.kind == Requires && |it.withOrTo| == 0 && !it.transitive && it.isStatic
    ensures ClauseLines(it) == [Indent + "requires" + " static" + " " + it.target + ";"]
  {
    assert HeadWords(it) == ["requires", "static"] + [it.target];
    assert ["requires"] + ["static"] == ["requires", "static"];
    JoinSnoc(Indent, ["requires"], "static", " ");
    JoinSnoc(Indent, ["requires", "static"], it.target, " ");
    AppendAssoc(Indent + "requires", " ", "static");
    assert " " + "static" == " static";
  }

  lemma RequiresPlainLine(it: Item)
    requires it.kind == Requires && |it.withOrTo| == 0 && !it.transitive && !it.isStatic
    ensures ClauseLines(it) == [Indent + "requires" + " " + it.target + ";"]
  {
    assert HeadWords(it) == ["requires"] + [it.target];
    JoinSnoc(Indent, ["requires"], it.target, " ");
  }

  /** A `requires` is written with its modifiers, `transitive` before `static`. */
  lemma RequiresClauseLines(it: Item)
    requires it.kind == Requires && |it.withOrTo| == 0
    ensures ClauseLines(it)
            == [Indent + "requires" + (if it.transitive then " transitive" else "")
                + (if it.isStatic then " static" else "") + " " + it.target + ";"]
  {
    var head := Indent + "requires";
    if it.transitive && it.isStatic {
      RequiresTransitiveStaticLine(it);
    } else if it.transitive {
      RequiresTransitiveLine(it);
      EmptyAppend("", head + " transitive");
    } else if it.isStatic {
      RequiresStaticLine(it);
      EmptyAppend("", head);
    } else {
      RequiresPlainLine(it);
      EmptyAppend("", head);
      EmptyAppend("", head);
    }
  }
}
