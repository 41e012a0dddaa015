/** The behaviours `ModuleInfoDescriptorTest` pins down, stated about the model: the text `contents`
    writes for descriptors built step by step, the lookups, the sorted rendering, the refusal of inner
    comments, the merges and add-if-absent. Class names the test takes from `Class.getName()` are
    parameters. */
module ModuleInfoScenarios {
  import opened Wrappers
  import opened Text
  import opened Sorting
  import opened ModuleInfoItem
  import opened ModuleInfoOrdering
  import opened ModuleInfoDescriptor
  import opened ModuleInfoUtil
  import opened ModuleInfoParser
  import opened ModuleInfoRoundTrip
  import opened ScenarioText

  // ---------------------------------------------------------------- helpers

  lemma JoinLast(parts: seq<string>, last: string)
    requires |parts| > 0
    ensures Join(parts + [last], "\n") == Join(parts, "\n") + "\n" + last
  {
    JoinAppend(parts, [last], "\n");
  }

  /** The lines of a comment-keeping descriptor in natural order, without a description. */
  lemma NaturalLines(d: Descriptor)
    requires d.ordering == NaturalPreserveComments && d.description.None?
    ensures DescriptorLines(d, true) == [GeneratedMarker, "module " + d.name + " {"] + ItemsLines(d.items, true) + ["}"]
    ensures DescriptorLines(d, false) == ["module " + d.name + " {"] + ItemsLines(d.items, true) + ["}"]
  {
    var m := "module " + d.name + " {";
    var body := BodyLines(d);
    assert body == [m] + ItemsLines(d.items, true) + ["}"];
    EmptyAppend(DescriptionLines(d.description), [GeneratedMarker]);
    EmptyAppend(DescriptionLines(d.description), body);
    EmptyAppend([], body);
    PrependFramed(GeneratedMarker, m, ItemsLines(d.items, true), "}");
  }

  /** ... and with one. */
  lemma DescribedLines(d: Descriptor, text: string)
    requires d.ordering == NaturalPreserveComments && d.description == Some(text)
    ensures DescriptorLines(d, true)
            == ["/**", " * " + text, " */", GeneratedMarker, "module " + d.name + " {"] + ItemsLines(d.items, true) + ["}"]
  {
    var m := "module " + d.name + " {";
    var lines := ItemsLines(d.items, true);
    assert BodyLines(d) == [m] + lines + ["}"];
    var head := ["/**", " * " + text, " */"];
    assert DescriptionLines(d.description) == head;
    PrependFramed(GeneratedMarker, m, lines, "}");
    AppendAssoc(head, [GeneratedMarker], [m] + lines + ["}"]);
    DescribedFrame(head[0], head[1], head[2], GeneratedMarker, m, lines, "}");
  }

  lemma DescribedFrame<T>(h0: T, h1: T, h2: T, x: T, y: T, l: seq<T>, z: T)
    ensures [h0, h1, h2] + ([x, y] + l + [z]) == [h0, h1, h2, x, y] + l + [z]
  {
    AppendAssoc([h0, h1, h2], [x, y] + l, [z]);
    AppendAssoc([h0, h1, h2], [x, y], l);
    assert [h0, h1, h2] + [x, y] == [h0, h1, h2, x, y];
  }

  /** An item without precomments is written as its clause lines alone. */
  lemma UncommentedLines(items: seq<Item>, it: Item)
    requires |it.precomments| == 0
    ensures ItemsLines(items + [it], true) == ItemsLines(items, true) + ClauseLines(it)
  {
    ItemsLinesSnoc(items, it, true);
    EmptyAppend(it.precomments, ClauseLines(it));
  }

  // ---------------------------------------------------------------- programmatic

  lemma UnnamedLine()
    ensures "module " + DefaultName + " {" == "module unnamed {"
  {
  }

  /** The descriptor of an empty builder is written as the marker and an empty `module unnamed`. */
  lemma EmptyBuilderContents()
    ensures Contents(Builder(), true) == GeneratedMarker + "\n" + "module unnamed {" + "\n" + "}"
  {
    var d := Builder();
    NaturalLines(d);
    UnnamedLine();
    assert ItemsLines(d.items, true) == [];
    assert DescriptorLines(d, true) == [GeneratedMarker, "module unnamed {"] + ["}"];
    JoinLast([GeneratedMarker, "module unnamed {"], "}");
    assert [GeneratedMarker, "module unnamed {"] == [GeneratedMarker] + ["module unnamed {"];
    JoinLast([GeneratedMarker], "module unnamed {");
  }

  /** The builder after naming it, describing it and adding `requires transitive their.module`. */
  function NamedRequires(): (d: Descriptor)
    ensures |d.items| == 1
  {
    AddItem(Builder().(name := "my.module", description := Some("comments here.")),
            RequiresModuleName("their.module", true, false, []))
  }

  /** ... after adding `uses <externalContracts>`. */
  function NamedUses(externalContracts: string): (d: Descriptor)
    ensures |d.items| == 2
  {
    AddItem(NamedRequires(), UsesExternalContract(externalContracts))
  }

  /** ... after adding `provides <contract> with some.impl`. */
  function NamedProvides(externalContracts: string, contract: string): (d: Descriptor)
    ensures |d.items| == 3
  {
    AddItem(NamedUses(externalContracts), ProvidesContract(contract, "some.impl"))
  }

  const NamedHead := ["/**", " * comments here.", " */", GeneratedMarker, "module my.module {"]

  const RequiresLine := "    requires transitive their.module;"

  lemma UsesLineText(typeName: string)
    ensures Indent + Keyword(Uses) + " " + typeName + ";" == "    uses " + typeName + ";"
  {
    assert Indent + Keyword(Uses) + " " == "    uses ";
  }

  lemma ProvidesLineText(contract: string, implementation: string)
    ensures Indent + Keyword(Provides) + " " + contract + " " + QualifierWord(Provides) + " " + implementation + ";"
            == "    provides " + contract + " with " + implementation + ";"
  {
    var a := Indent + Keyword(Provides) + " ";
    assert a == "    provides ";
    var b := " " + QualifierWord(Provides) + " ";
    assert b == " with ";
    AppendAssoc(a + contract, " ", QualifierWord(Provides));
    AppendAssoc(a + contract, " " + QualifierWord(Provides), " ");
  }

  lemma SomeImplLineText(contract: string)
    ensures "    provides " + contract + " with " + "some.impl" + ";" == "    provides " + contract + " with some.impl;"
  {
    var a := "    provides " + contract;
    AppendAssoc(a, " with ", "some.impl");
    assert " with " + "some.impl" == " with some.impl";
    AppendAssoc(a, " with some.impl", ";");
    assert " with some.impl" + ";" == " with some.impl;";
  }

  lemma NamedHeadLines(d: Descriptor)
    requires d.ordering == NaturalPreserveComments && d.description == Some("comments here.")
    requires d.name == "my.module"
    ensures DescriptorLines(d, true) == NamedHead + ItemsLines(d.items, true) + ["}"]
  {
    DescribedLines(d, "comments here.");
    DescriptionLineText();
    ModuleLineText();
  }

  lemma RequiresTheirModule()
    ensures ClauseLines(RequiresModuleName("their.module", true, false, [])) == [RequiresLine]
  {
    var it := RequiresModuleName("their.module", true, false, []);
    RequiresClauseLines(it);
    assert Indent == "    ";
    RequiresLineText();
  }

  lemma NamedRequiresItems()
    ensures ItemsLines(NamedRequires().items, true) == [RequiresLine]
  {
    var it := RequiresModuleName("their.module", true, false, []);
    RequiresTheirModule();
    assert NamedRequires().items == [] + [it];
    UncommentedLines([], it);
  }

  lemma NamedUsesItems(externalContracts: string)
    ensures ItemsLines(NamedUses(externalContracts).items, true)
            == [RequiresLine, "    uses " + externalContracts + ";"]
  {
    var u := UsesExternalContract(externalContracts);
    NamedRequiresItems();
    PlainClauseLines(u);
    UsesLineText(externalContracts);
    UncommentedLines(NamedRequires().items, u);
  }

  lemma NamedProvidesItems(externalContracts: string, contract: string)
    ensures ItemsLines(NamedProvides(externalContracts, contract).items, true)
            == [RequiresLine, "    uses " + externalContracts + ";", "    provides " + contract + " with some.impl;"]
  {
    var p := ProvidesContract(contract, "some.impl");
    NamedUsesItems(externalContracts);
    QualifiedClauseLines(p);
    ProvidesLineText(contract, "some.impl");
    SomeImplLineText(contract);
    UncommentedLines(NamedUses(externalContracts).items, p);
  }

  /** Each step of the programmatic test: every added clause is written as a line of its own, in the
      order of the calls, between the module line and the closing brace. */
  lemma NamedRequiresContents()
    ensures Contents(NamedRequires(), true) == Join(NamedHead + [RequiresLine, "}"], "\n")
  {
    var d := NamedRequires();
    NamedRequiresItems();
    NamedHeadLines(d);
    assert DescriptorLines(d, true) == NamedHead + [RequiresLine, "}"];
  }

  lemma NamedUsesContents(externalContracts: string)
    ensures Contents(NamedUses(externalContracts), true)
            == Join(NamedHead + [RequiresLine, "    uses " + externalContracts + ";", "}"], "\n")
  {
    var d := NamedUses(externalContracts);
    NamedUsesItems(externalContracts);
    NamedHeadLines(d);
    assert DescriptorLines(d, true) == NamedHead + [RequiresLine, "    uses " + externalContracts + ";", "}"];
  }

  lemma NamedProvidesContents(externalContracts: string, contract: string)
    ensures Contents(NamedProvides(externalContracts, contract), true)
            == Join(NamedHead + [RequiresLine, "    uses " + externalContracts + ";",
                                 "    provides " + contract + " with some.impl;", "}"], "\n")
  {
    var d := NamedProvides(externalContracts, contract);
    NamedProvidesItems(externalContracts, contract);
    NamedHeadLines(d);
    assert DescriptorLines(d, true) == NamedHead + [RequiresLine, "    uses " + externalContracts + ";",
                                                    "    provides " + contract + " with some.impl;", "}"];
  }

  // ---------------------------------------------------------------- first unqualified export

  /** The descriptor of the first-unqualified-export test: two `provides`, a qualified and an
      unqualified `exports`. */
  function ExportsDescriptor(): (d: Descriptor)
    ensures |d.items| == 4
    ensures d.name == "test" && d.description.None? && d.ordering == NaturalPreserveComments
  {
    AddItem(AddItem(AddItem(AddItem(Builder().(name := "test"),
      ProvidesContract("cn2", "impl2")),
      ProvidesContract("cn1", "impl1")),
      ExportsPackageTo("export1", "private.module.name")),
      ExportsPackage("export2"))
  }

  lemma ProvidesLine(contract: string, implementation: string, line: string)
    requires line == "    provides " + contract + " with " + implementation + ";"
    ensures ClauseLines(ProvidesContract(contract, implementation)) == [line]
  {
    QualifiedClauseLines(ProvidesContract(contract, implementation));
    ProvidesLineText(contract, implementation);
  }

  lemma ExportsToLine(pkg: string, toModule: string, line: string)
    requires line == "    exports " + pkg + " to " + toModule + ";"
    ensures ClauseLines(ExportsPackageTo(pkg, toModule)) == [line]
  {
    var it := ExportsPackageTo(pkg, toModule);
    QualifiedClauseLines(it);
    var a := Indent + Keyword(Exports) + " ";
    assert a == "    exports ";
    AppendAssoc(a + pkg, " ", QualifierWord(Exports));
    AppendAssoc(a + pkg, " " + QualifierWord(Exports), " ");
    assert " " + QualifierWord(Exports) + " " == " to ";
  }

  lemma ExportsLine(pkg: string, line: string)
    requires line == "    exports " + pkg + ";"
    ensures ClauseLines(ExportsPackage(pkg)) == [line]
  {
    PlainClauseLines(ExportsPackage(pkg));
    assert Indent + Keyword(Exports) + " " == "    exports ";
  }

  /** Four items without precomments are written as their clause lines, one after another. */
  lemma FourItemsLines(a: Item, b: Item, c: Item, e: Item, la: string, lb: string, lc: string, le: string)
    requires |a.precomments| == 0 && |b.precomments| == 0 && |c.precomments| == 0 && |e.precomments| == 0
    requires ClauseLines(a) == [la] && ClauseLines(b) == [lb] && ClauseLines(c) == [lc] && ClauseLines(e) == [le]
    ensures ItemsLines([a, b, c, e], true) == [la, lb, lc, le]
  {
    var s := [a, b, c, e];
    assert s[1..] == [b, c, e] && s[1..][1..] == [c, e] && s[1..][1..][1..] == [e];
    assert ItemsLines([e], true) == ItemLines(e, true) + [];
    assert ItemsLines([c, e], true) == ItemLines(c, true) + ItemsLines([e], true);
    assert ItemsLines([b, c, e], true) == ItemLines(b, true) + ItemsLines([c, e], true);
    EmptyAppend(a.precomments, [la]);
    EmptyAppend(b.precomments, [lb]);
    EmptyAppend(c.precomments, [lc]);
    EmptyAppend(e.precomments, [le]);
    ScenarioText.FourFrame(la, lb, lc, le);
  }

  lemma ExportsItems()
    ensures ItemsLines(ExportsDescriptor().items, true)
            == ["    provides cn2 with impl2;", "    provides cn1 with impl1;",
                "    exports export1 to private.module.name;", "    exports export2;"]
  {
    var a := ProvidesContract("cn2", "impl2");
    var b := ProvidesContract("cn1", "impl1");
    var c := ExportsPackageTo("export1", "private.module.name");
    var e := ExportsPackage("export2");
    assert ExportsDescriptor().items == [a, b, c, e];
    var la := "    provides " + "cn2" + " with " + "impl2" + ";";
    var lb := "    provides " + "cn1" + " with " + "impl1" + ";";
    var lc := "    exports " + "export1" + " to " + "private.module.name" + ";";
    var le := "    exports " + "export2" + ";";
    ProvidesLine("cn2", "impl2", la);
    ProvidesLine("cn1", "impl1", lb);
    ExportsToLine("export1", "private.module.name", lc);
    ExportsLine("export2", le);
    FourItemsLines(a, b, c, e, la, lb, lc, le);
    ProvidesCn2Text();
    ProvidesCn1Text();
    Export1Text();
    Export2Text();
  }

  /** The lines of a comment-keeping descriptor without a description, from its module line and the
      lines of its emitted clauses. */
  lemma UndescribedBody(d: Descriptor, moduleLine: string, body: seq<string>)
    requires d.description.None? && KeepsComments(d.ordering)
    requires "module " + d.name + " {" == moduleLine
    requires ItemsLines(EmittedItems(d.items, d.ordering), true) == body
    ensures DescriptorLines(d, false) == [moduleLine] + body + ["}"]
    ensures DescriptorLines(d, true) == [GeneratedMarker] + ([moduleLine] + body + ["}"])
  {
    var lines := [moduleLine] + body + ["}"];
    assert BodyLines(d) == lines;
    EmptyAppend(DescriptionLines(d.description), [GeneratedMarker]);
    EmptyAppend(DescriptionLines(d.description), lines);
    EmptyAppend([], lines);
  }

  /** ... and its text, with and without the generated-file marker. */
  lemma UndescribedContents(d: Descriptor, moduleLine: string, body: seq<string>)
    requires d.description.None? && KeepsComments(d.ordering)
    requires "module " + d.name + " {" == moduleLine
    requires ItemsLines(EmittedItems(d.items, d.ordering), true) == body
    ensures Contents(d, true) == Join([GeneratedMarker, moduleLine] + body + ["}"], "\n")
    ensures Contents(d, false) == Join([moduleLine] + body + ["}"], "\n")
  {
    UndescribedBody(d, moduleLine, body);
    AppendAssoc([GeneratedMarker], [moduleLine] + body, ["}"]);
    AppendAssoc([GeneratedMarker], [moduleLine], body);
    assert [GeneratedMarker] + [moduleLine] == [GeneratedMarker, moduleLine];
  }

  lemma FourLinesBody(g: string, m: string, a: string, b: string, c: string, e: string)
    ensures [g, m] + [a, b, c, e] + ["}"] == [g, m, a, b, c, e, "}"]
  {
  }

  /** The lines the first-unqualified-export test expects. */
  const ExportsText := [GeneratedMarker, "module test {", "    provides cn2 with impl2;", "    provides cn1 with impl1;",
                        "    exports export1 to private.module.name;", "    exports export2;", "}"]

  /** The clauses are written in insertion order under the default policy. */
  lemma ExportsContents()
    ensures Contents(ExportsDescriptor(), true) == Join(ExportsText, "\n")
  {
    var body := ["    provides cn2 with impl2;", "    provides cn1 with impl1;",
                 "    exports export1 to private.module.name;", "    exports export2;"];
    ExportsItems();
    ModuleTestLine();
    assert "module " + ExportsDescriptor().name + " {" == "module test {";
    UndescribedContents(ExportsDescriptor(), "module test {", body);
    FourLinesBody(GeneratedMarker, "module test {", body[0], body[1], body[2], body[3]);
  }

  /** The qualified `exports export1` is passed over for `export2`, and `first("cn1")` finds the second
      `provides`, whatever its kind. */
  lemma ExportsLookups()
    ensures FirstUnqualifiedPackageExport(ExportsDescriptor()) == Some("export2")
    ensures First(ExportsDescriptor(), "cn1") == Some(ProvidesContract("cn1", "impl1"))
    ensures First(ExportsDescriptor(), "cn1").value.kind == Provides
  {
    var items := ExportsDescriptor().items;
    FirstIndexAt(items, IsUnqualifiedExport, 3);
    var f := First(ExportsDescriptor(), "cn1");
    assert items[1].target == "cn1";
    var i :| 0 <= i < |items| && items[i] == f.value && f.value.target == "cn1"
             && forall j :: 0 <= j < i ==> items[j].target != "cn1";
    assert i == 1;
  }

  // ---------------------------------------------------------------- sorted

  const SortedComment := "    // this is an export1 comment"

  /** The `exports export1` clause of the sorted test, built with two `to` modules and a comment. */
  function Export1(): Item {
    Item(Exports, "export1", false, false, ["private.module.name", "another.private.module.name"], [SortedComment])
  }

  /** The descriptor of the sorted test; `order` is the kind precedence of `SORTED`. */
  function SortedDescriptor(order: seq<Kind>): (d: Descriptor)
    ensures |d.items| == 4
    ensures d.name == "test" && d.description.None? && d.ordering == Sorted(order)
  {
    AddItem(AddItem(AddItem(AddItem(Builder().(name := "test", ordering := Sorted(order)),
      ProvidesContract("cn2", "impl2")),
      ProvidesContract("cn1", "impl1")),
      ExportsPackage("export2")),
      Export1())
  }

  lemma SortedQualifiers()
    ensures SortStrings(["private.module.name", "another.private.module.name"])
            == ["another.private.module.name", "private.module.name"]
  {
    var a := "another.private.module.name";
    var p := "private.module.name";
    assert [p, a][1..] == [a];
    assert Sort([a], StrLe) == [a];
    StrLeFirstDifference(p, a, 0);
  }

  lemma InsertFront<T>(x: T, s: seq<T>, le: (T, T) -> bool)
    requires |s| > 0 && le(x, s[0])
    ensures Insert(x, s, le) == [x] + s
  {
  }

  lemma InsertPast<T>(x: T, s: seq<T>, le: (T, T) -> bool)
    requires |s| > 0 && !le(x, s[0])
    ensures Insert(x, s, le) == [s[0]] + Insert(x, s[1..], le)
  {
  }

  lemma SortCons<T>(x: T, s: seq<T>, le: (T, T) -> bool)
    ensures Sort([x] + s, le) == Insert(x, Sort(s, le), le)
  {
    assert ([x] + s)[1..] == s;
  }

  // Insertion sort of the four items of the sorted test, one insertion at a time; the comparisons
  // the sort asks for are the requirements.

  lemma SortTwo<T>(y: T, z: T, le: (T, T) -> bool)
    requires !le(y, z)
    ensures Sort([y, z], le) == [z, y]
  {
    SortCons(z, [], le);
    assert [z] + [] == [z];
    assert Sort([z], le) == [z];
    SortCons(y, [z], le);
    InsertPast(y, [z], le);
    assert [y] + [z] == [y, z];
  }

  lemma SortThree<T>(x: T, y: T, z: T, le: (T, T) -> bool)
    requires !le(y, z) && le(x, z)
    ensures Sort([x, y, z], le) == [x, z, y]
  {
    SortTwo(y, z, le);
    SortCons(x, [y, z], le);
    InsertFront(x, [z, y], le);
    assert [x] + [y, z] == [x, y, z];
  }

  lemma InsertSecond<T>(w: T, x: T, z: T, y: T, le: (T, T) -> bool)
    requires !le(w, x) && le(w, z)
    ensures Insert(w, [x, z, y], le) == [x, w, z, y]
  {
    InsertPast(w, [x, z, y], le);
    assert [x, z, y][1..] == [z, y];
    InsertFront(w, [z, y], le);
    assert [x] + ([w] + [z, y]) == [x, w, z, y];
  }

  lemma SortFour<T>(w: T, x: T, y: T, z: T, le: (T, T) -> bool)
    requires !le(y, z) && le(x, z) && !le(w, x) && le(w, z)
    ensures Sort([w, x, y, z], le) == [x, w, z, y]
  {
    SortThree(x, y, z, le);
    SortCons(w, [x, y, z], le);
    assert [w] + [x, y, z] == [w, x, y, z];
    InsertSecond(w, x, z, y, le);
  }

  /** `export1` with its `to` modules in order. */
  function SortedExport1(): Item {
    Export1().(withOrTo := ["another.private.module.name", "private.module.name"])
  }

  lemma TargetOrder()
    ensures !StrLe("export2", "export1") && !StrLe("cn2", "cn1")
  {
    StrLeFirstDifference("export2", "export1", 6);
    StrLeFirstDifference("cn2", "cn1", 2);
  }

  /** The comparisons the insertion sort makes on the sorted test's items. */
  lemma SortedComparisons(order: seq<Kind>)
    requires Rank(order, Provides) < Rank(order, Exports)
    ensures var le := ItemOrder(order);
      && !le(ExportsPackage("export2"), SortedExport1())
      && le(ProvidesContract("cn1", "impl1"), SortedExport1())
      && !le(ProvidesContract("cn2", "impl2"), ProvidesContract("cn1", "impl1"))
      && le(ProvidesContract("cn2", "impl2"), SortedExport1())
  {
    TargetOrder();
  }

  lemma PreparedFour(items: seq<Item>, a: Item, b: Item, c: Item, e: Item)
    requires items == [a, b, c, e]
    ensures seq(|items|, i requires 0 <= i < |items| => WithSortedQualifiers(items[i]))
            == [WithSortedQualifiers(a), WithSortedQualifiers(b), WithSortedQualifiers(c), WithSortedQualifiers(e)]
  {
  }

  lemma SortedDescriptorItems(order: seq<Kind>)
    ensures SortedDescriptor(order).items
            == [ProvidesContract("cn2", "impl2"), ProvidesContract("cn1", "impl1"), ExportsPackage("export2"), Export1()]
  {
  }

  lemma Export1Prepared()
    ensures WithSortedQualifiers(Export1()) == SortedExport1()
    ensures WithSortedQualifiers(ExportsPackage("export2")) == ExportsPackage("export2")
  {
    SortedQualifiers();
    assert Sort([], StrLe) == [];
  }

  /** The items as `SORTED` prepares them for sorting: `to` modules sorted. */
  lemma SortedPrepared(order: seq<Kind>)
    ensures var items := SortedDescriptor(order).items;
      seq(|items|, i requires 0 <= i < |items| => WithSortedQualifiers(items[i]))
      == [ProvidesContract("cn2", "impl2"), ProvidesContract("cn1", "impl1"), ExportsPackage("export2"), SortedExport1()]
  {
    SortedDescriptorItems(order);
    PreparedFour(SortedDescriptor(order).items, ProvidesContract("cn2", "impl2"), ProvidesContract("cn1", "impl1"),
                 ExportsPackage("export2"), Export1());
    Export1Prepared();
  }

  /** `SORTED` puts the `provides` clauses first, each group by target, and the `to` modules of
      `export1` in order. */
  lemma SortedItems(order: seq<Kind>)
    requires Rank(order, Provides) < Rank(order, Exports)
    ensures EmittedItems(SortedDescriptor(order).items, Sorted(order))
            == [ProvidesContract("cn1", "impl1"), ProvidesContract("cn2", "impl2"), SortedExport1(), ExportsPackage("export2")]
  {
    SortedPrepared(order);
    SortedComparisons(order);
    SortFour(ProvidesContract("cn2", "impl2"), ProvidesContract("cn1", "impl1"), ExportsPackage("export2"),
             SortedExport1(), ItemOrder(order));
  }

  /** Four items, the third with one comment line and a continuation line, written one after another. */
  lemma CommentedFourLines(a: Item, b: Item, c: Item, e: Item,
                           la: string, lb: string, comment: string, lc1: string, lc2: string, le: string)
    requires |a.precomments| == 0 && |b.precomments| == 0 && c.precomments == [comment] && |e.precomments| == 0
    requires ClauseLines(a) == [la] && ClauseLines(b) == [lb] && ClauseLines(c) == [lc1, lc2] && ClauseLines(e) == [le]
    ensures ItemsLines([a, b, c, e], true) == [la, lb, comment, lc1, lc2, le]
  {
    var s := [a, b, c, e];
    assert s[1..] == [b, c, e] && s[1..][1..] == [c, e] && s[1..][1..][1..] == [e];
    assert ItemsLines([e], true) == ItemLines(e, true) + [];
    assert ItemsLines([c, e], true) == ItemLines(c, true) + ItemsLines([e], true);
    assert ItemsLines([b, c, e], true) == ItemLines(b, true) + ItemsLines([c, e], true);
    EmptyAppend(a.precomments, [la]);
    EmptyAppend(b.precomments, [lb]);
    EmptyAppend(e.precomments, [le]);
    ScenarioText.CommentedFourFrame(la, lb, comment, lc1, lc2, le);
  }

  /** The two lines of an `exports` with two `to` modules. */
  lemma ExportsTwoLines(pkg: string, first: string, second: string, line: string)
    requires line == "    exports " + pkg + " to " + first + ","
    ensures ClauseLines(Item(Exports, pkg, false, false, [first, second], [SortedComment]))
            == [line, ContinuationIndent + second + ";"]
  {
    var it := Item(Exports, pkg, false, false, [first, second], [SortedComment]);
    ContinuedClauseLines(it);
    var a := Indent + Keyword(Exports) + " ";
    assert a == "    exports ";
    AppendAssoc(a + pkg, " ", QualifierWord(Exports));
    AppendAssoc(a + pkg, " " + QualifierWord(Exports), " ");
    assert " " + QualifierWord(Exports) + " " == " to ";
  }

  lemma SortedExport1Lines()
    ensures ClauseLines(SortedExport1()) == ["    exports export1 to another.private.module.name,", "\t\t\tprivate.module.name;"]
  {
    ExportsTwoLines("export1", "another.private.module.name", "private.module.name",
                    "    exports " + "export1" + " to " + "another.private.module.name" + ",");
    Export1FirstText();
    assert ContinuationIndent == "\t\t\t";
    ContinuationText();
  }

  lemma SortedItemsLines()
    ensures ItemsLines([ProvidesContract("cn1", "impl1"), ProvidesContract("cn2", "impl2"), SortedExport1(),
                        ExportsPackage("export2")], true)
            == ["    provides cn1 with impl1;", "    provides cn2 with impl2;", SortedComment,
                "    exports export1 to another.private.module.name,", "\t\t\tprivate.module.name;", "    exports export2;"]
  {
    var la := "    provides " + "cn1" + " with " + "impl1" + ";";
    var lb := "    provides " + "cn2" + " with " + "impl2" + ";";
    var le := "    exports " + "export2" + ";";
    ProvidesLine("cn1", "impl1", la);
    ProvidesLine("cn2", "impl2", lb);
    ExportsLine("export2", le);
    SortedExport1Lines();
    ProvidesCn2Text();
    ProvidesCn1Text();
    Export2Text();
    CommentedFourLines(ProvidesContract("cn1", "impl1"), ProvidesContract("cn2", "impl2"), SortedExport1(),
                       ExportsPackage("export2"), la, lb, SortedComment,
                       "    exports export1 to another.private.module.name,", "\t\t\tprivate.module.name;", le);
  }

  /** The lines the sorted test expects. */
  const SortedText := [GeneratedMarker, "module test {", "    provides cn1 with impl1;", "    provides cn2 with impl2;",
                       SortedComment, "    exports export1 to another.private.module.name,", "\t\t\tprivate.module.name;",
                       "    exports export2;", "}"]

  lemma SixLinesBody(g: string, m: string, a: string, b: string, c: string, e: string, f: string, h: string)
    ensures [g, m] + [a, b, c, e, f, h] + ["}"] == [g, m, a, b, c, e, f, h, "}"]
  {
  }

  /** Under `SORTED` the text lists the `provides` before the `exports`, each group by target, keeps the
      precomment of `export1` above it and writes its `to` modules in order, the second on a
      continuation line. */
  lemma SortedContents(order: seq<Kind>)
    requires Rank(order, Provides) < Rank(order, Exports)
    ensures Contents(SortedDescriptor(order), true) == Join(SortedText, "\n")
  {
    var d := SortedDescriptor(order);
    var body := ["    provides cn1 with impl1;", "    provides cn2 with impl2;", SortedComment,
                 "    exports export1 to another.private.module.name,", "\t\t\tprivate.module.name;", "    exports export2;"];
    SortedItems(order);
    SortedItemsLines();
    ModuleTestLine();
    assert "module " + d.name + " {" == "module test {";
    UndescribedContents(d, "module test {", body);
    SixLinesBody(GeneratedMarker, "module test {", body[0], body[1], body[2], body[3], body[4], body[5]);
  }

  // ---------------------------------------------------------------- inner comments

  /** A statement line that starts with a visible character other than `/` and ends with `;`. */
  lemma StatementLineShape(line: string)
    requires |line| > 1 && line[0] != '/' && !IsSpace(line[0]) && line[|line| - 1] == ';'
    ensures Trim(line) == line && |Trim(line)| > 0 && !IsClosingBrace(line) && EndsStatement(line)
    ensures !StartsWith(Trim(line), "//")
  {
    TrimVisible(line);
    TrimRightVisible(line);
    assert line[..2][0] == line[0];
  }

  /** A first clause line that holds a block comment is refused with that clause. */
  lemma FirstClauseRejected(line: string, rest: seq<string>, keepComments: bool)
    requires StartLine(line) && EndsStatement(line) && HasInnerComment(line)
    ensures ParseItems([line] + rest, keepComments, [], []) == Failure(InnerComment(ClauseText(line)))
  {
    var lines := [line] + rest;
    FirstIndexAt(lines, EndsStatement, 0);
    assert lines[..1] == [line];
    var r := ParseStatement([line], []);
    assert r.Failure? && r.error.InnerComment? && r.error.clause == ClauseText(line);
  }

  /** The stages of `ParseLines` when reading the clauses fails. */
  lemma ParseLinesRefused(lines: seq<string>, ordering: Ordering, description: Option<string>,
                          afterDescription: seq<string>, body: seq<string>, name: string)
    requires SplitDescription(lines) == (description, afterDescription)
    requires SkipHeader(afterDescription) == body
    requires |body| > 0 && ModuleName(body[0]) == Some(name)
    requires ParseItems(body[1..], KeepsComments(ordering), [], []).Failure?
    ensures ParseLines(lines, ordering) == Failure(ParseItems(body[1..], KeepsComments(ordering), [], []).error)
  {
  }

  /** A failure reading the clauses after a `module <name> {` line is the failure of the whole text. */
  lemma RefusedBody(name: string, body: seq<string>, ordering: Ordering)
    requires IsName(name)
    requires ParseItems(body, KeepsComments(ordering), [], []).Failure?
    ensures ParseLines(["module " + name + " {"] + body, ordering)
            == Failure(ParseItems(body, KeepsComments(ordering), [], []).error)
  {
    var lines := ["module " + name + " {"] + body;
    assert lines == DescriptionLines(None) + ([] + lines);
    AssembledHeader(lines, None, false, lines, name);
    assert lines[1..] == body;
    ParseLinesRefused(lines, ordering, None, [] + lines, lines, name);
  }

  /** A declaration whose first clause line holds a block comment is refused with that clause,
      trimmed and without its `;`, whatever its indentation, whatever follows it and whatever the
      ordering. */
  lemma InnerCommentRejected(name: string, line: string, rest: seq<string>, ordering: Ordering)
    requires IsName(name)
    requires StartLine(line) && EndsStatement(line) && HasInnerComment(line)
    ensures ParseLines(["module " + name + " {", line] + rest, ordering) == Failure(InnerComment(ClauseText(line)))
  {
    var body := [line] + rest;
    assert ["module " + name + " {", line] + rest == ["module " + name + " {"] + body;
    FirstClauseRejected(line, rest, KeepsComments(ordering));
    RefusedBody(name, body, ordering);
  }

  /** A clause with its `;` reads back as the clause. */
  lemma ClauseTextOf(clause: string)
    requires |clause| > 0 && !IsSpace(clause[0])
    ensures ClauseText(clause + ";") == clause
  {
    var line := clause + ";";
    TrimVisible(line);
    assert line[..|line| - 1] == clause;
  }

  /** A clause starting with a letter, with a block-comment opener at positions 9 and 10, and its `;`. */
  lemma CommentedStatement(clause: string)
    requires |clause| > 10 && clause[0] == 'p' && clause[9] == '/' && clause[10] == '*'
    ensures var line := clause + ";";
      |line| > 1 && line[0] != '/' && !IsSpace(line[0]) && line[|line| - 1] == ';' && HasInnerComment(line)
  {
    var line := clause + ";";
    assert line[9] == '/' && line[10] == '*';
  }

  lemma TestIsName()
    ensures IsName("test")
  {
  }

  /** The text of the inner-comment test. */
  const InnerCommentModule := "module test {\nprovides /* inner comment */ cn;\n}"

  const InnerCommentClause := "provides /* inner comment */ cn"

  lemma InnerCommentModuleLines()
    ensures Lines(InnerCommentModule) == ["module " + "test" + " {", InnerCommentClause + ";"] + ["}"]
  {
    var line := InnerCommentClause + ";";
    var lines := ["module test {", line, "}"];
    InnerCommentModuleText();
    assert Join(["}"], "\n") == "}";
    JoinCons([line, "}"], "\n");
    assert [line, "}"][1..] == ["}"];
    JoinCons(lines, "\n");
    assert lines[1..] == [line, "}"];
    InnerCommentLinesText();
    LinesOfJoin(lines);
    ModuleTestLine();
  }

  /** `create` refuses the inner-comment test's text, naming the clause in its message. */
  lemma InnerCommentNotSupported(ordering: Ordering)
    ensures Create(InnerCommentModule, ordering) == Failure(InnerComment("provides /* inner comment */ cn"))
    ensures Message(Create(InnerCommentModule, ordering).error)
            == "Unable to parse lines that have inner comments: 'provides /* inner comment */ cn'"
  {
    var line := InnerCommentClause + ";";
    InnerCommentModuleLines();
    InnerCommentClauseText();
    CommentedStatement(InnerCommentClause);
    StatementLineShape(line);
    ClauseTextOf(InnerCommentClause);
    TestIsName();
    InnerCommentRejected("test", line, ["}"], ordering);
    InnerCommentMessageText();
    assert Message(InnerComment("provides /* inner comment */ cn"))
           == "Unable to parse lines that have inner comments: '" + "provides /* inner comment */ cn" + "'";
  }

  // ---------------------------------------------------------------- merge

  /** A descriptor object merged with itself is refused. */
  lemma MergeWithSelfRefused(x: Instance)
    ensures MergeCreate(x, x).Failure? && Message(MergeCreate(x, x).error) == "can't merge with self"
  {
  }

  /** A builder holding one unqualified export. */
  function SingleExport(pkg: string): (d: Descriptor)
    ensures d.name == DefaultName && d.description.None? && d.ordering == NaturalPreserveComments
  {
    AddItem(Builder(), ExportsPackage(pkg))
  }

  /** Merging `exports one` with `exports two` appends the second clause to the first. */
  lemma MergeOneTwo(one: Instance, two: Instance)
    requires one.id != two.id && one.value == SingleExport("one") && two.value == SingleExport("two")
    ensures MergeCreate(one, two) == Success(AddItem(SingleExport("one"), ExportsPackage("two")))
  {
    var a := ExportsPackage("one");
    var b := ExportsPackage("two");
    assert SingleExport("one").items == [a] && SingleExport("two").items == [b];
    KeysCons([a]);
    KeysCons([b]);
    assert KeyOf(a) != KeyOf(b);
    MergeItemsDisjoint([a], [b]);
  }

  /** The text of a merged descriptor lists self's clauses, then other's. */
  lemma MergeOneTwoContents(one: Instance, two: Instance)
    requires one.id != two.id && one.value == SingleExport("one") && two.value == SingleExport("two")
    ensures Contents(MergeCreate(one, two).value, false)
            == Join(["module unnamed {", "    exports one;", "    exports two;", "}"], "\n")
  {
    MergeOneTwo(one, two);
    var d := AddItem(SingleExport("one"), ExportsPackage("two"));
    var la := "    exports " + "one" + ";";
    var lb := "    exports " + "two" + ";";
    ExportsLine("one", la);
    ExportsLine("two", lb);
    assert d.items == [] + [ExportsPackage("one")] + [ExportsPackage("two")];
    UncommentedLines([], ExportsPackage("one"));
    UncommentedLines([] + [ExportsPackage("one")], ExportsPackage("two"));
    ExportOneTwoText();
    UnnamedLine();
    UndescribedContents(d, "module unnamed {", ["    exports one;", "    exports two;"]);
    TwoLinesBody("module unnamed {", "    exports one;", "    exports two;");
  }

  lemma TwoLinesBody(m: string, a: string, b: string)
    ensures [m] + [a, b] + ["}"] == [m, a, b, "}"]
  {
  }

  // ---------------------------------------------------------------- add if absent

  /** The item the add-if-absent test supplies: `uses external` with one comment line. */
  function ExternalUses(comment: string): Item {
    Item(Uses, "external", false, false, [], [comment])
  }

  /** The second supplier is never asked: the text holds the first item, with its comment. */
  lemma AddIfAbsentContents()
    ensures var d := AddIfAbsent(AddIfAbsent(Builder(), "external", ExternalUses("    // 1")),
                                 "external", ExternalUses("    // 2"));
      Contents(d, false) == Join(["module unnamed {", "    // 1", "    uses external;", "}"], "\n")
  {
    AddIfAbsentTwice(Builder(), "external", ExternalUses("    // 1"), ExternalUses("    // 2"));
    var d := AddItem(Builder(), ExternalUses("    // 1"));
    PlainClauseLines(ExternalUses("    // 1"));
    UsesExternalText();
    ItemsLinesSnoc([], ExternalUses("    // 1"), true);
    assert d.items == [] + [ExternalUses("    // 1")];
    UnnamedLine();
    UndescribedContents(d, "module unnamed {", ["    // 1", "    uses external;"]);
    TwoLinesBody("module unnamed {", "    // 1", "    uses external;");
  }
}
