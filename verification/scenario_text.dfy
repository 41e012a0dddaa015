/** The literal lines and URIs the scenarios expect, assembled from the pieces the model writes.
    These equalities between string literals are kept in a module with no imports, so that each is
    proved with no other definition in view. `ModuleInfoScenarios` and `GreetResourceFilter` use them. */
module ScenarioText {

  lemma DescriptionLineText()
    ensures " * " + "comments here." == " * comments here."
  {
  }

  lemma ModuleLineText()
    ensures "module " + "my.module" + " {" == "module my.module {"
  {
  }

  lemma ModuleTestLine()
    ensures "module " + "test" + " {" == "module test {"
  {
  }

  lemma RequiresLineText()
    ensures "    " + "requires" + " transitive" + "" + " " + "their.module" + ";" == "    requires transitive their.module;"
  {
  }

  lemma ProvidesCn2Text()
    ensures "    provides " + "cn2" + " with " + "impl2" + ";" == "    provides cn2 with impl2;"
  {
  }

  lemma ProvidesCn1Text()
    ensures "    provides " + "cn1" + " with " + "impl1" + ";" == "    provides cn1 with impl1;"
  {
  }

  lemma Export1Text()
    ensures "    exports " + "export1" + " to " + "private.module.name" + ";" == "    exports export1 to private.module.name;"
  {
  }

  lemma Export2Text()
    ensures "    exports " + "export2" + ";" == "    exports export2;"
  {
  }

  lemma Export1FirstText()
    ensures "    exports " + "export1" + " to " + "another.private.module.name" + ","
            == "    exports export1 to another.private.module.name,"
  {
  }

  lemma ContinuationText()
    ensures "\t\t\t" + "private.module.name" + ";" == "\t\t\tprivate.module.name;"
  {
  }

  lemma InnerCommentMessageText()
    ensures "Unable to parse lines that have inner comments: '" + "provides /* inner comment */ cn" + "'"
            == "Unable to parse lines that have inner comments: 'provides /* inner comment */ cn'"
  {
  }

  lemma InnerCommentModuleText()
    ensures "module test {\nprovides /* inner comment */ cn;\n}"
            == "module test {" + "\n" + ("provides /* inner comment */ cn" + ";" + "\n" + "}")
  {
  }

  lemma InnerCommentLinesText()
    ensures '\n' !in "module test {" && '\n' !in "provides /* inner comment */ cn" + ";" && '\n' !in "}"
  {
  }

  lemma InnerCommentClauseText()
    ensures var c := "provides /* inner comment */ cn";
      |c| > 10 && c[0] == 'p' && c[9] == '/' && c[10] == '*'
  {
  }

  lemma ExportOneTwoText()
    ensures "    exports " + "one" + ";" == "    exports one;" && "    exports " + "two" + ";" == "    exports two;"
  {
  }

  lemma UsesExternalText()
    ensures "    " + "uses" + " " + "external" + ";" == "    uses external;"
  {
  }

  lemma ServerUriText()
    ensures "http://localhost" + ":" + "41234" + "/" == "http://localhost:41234/"
  {
  }

  lemma RequestUriText()
    ensures "http://localhost" + ":" + "8080" + "/greet" == "http://localhost:8080/greet"
    ensures "http://localhost" + ":" + "41234" + "/greet" == "http://localhost:41234/greet"
  {
  }

  lemma UriPartsText()
    ensures '8' !in "http://localhost" + ":" && '8' !in "/greet"
    ensures ':' !in "41234" && '/' !in "41234" && ':' !in "/"
  {
  }

  /** Four clause lines, the third written after its comment and with a continuation line. */
  lemma CommentedFourFrame<T>(la: T, lb: T, comment: T, lc1: T, lc2: T, le: T)
    ensures [la] + ([lb] + (([comment] + [lc1, lc2]) + ([le] + []))) == [la, lb, comment, lc1, lc2, le]
  {
  }

  lemma FourFrame<T>(la: T, lb: T, lc: T, le: T)
    ensures [la] + ([lb] + ([lc] + ([le] + []))) == [la, lb, lc, le]
  {
  }
}
