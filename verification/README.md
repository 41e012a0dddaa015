# Module descriptors and the port-rewriting request filter, in Dafny

This project models two small pieces of Helidon.

**The module-descriptor engine of the Pico tools.** `ModuleInfoDescriptor` is an immutable value. It holds:

- a module name (`unnamed` when none is given);
- an optional one-line description comment;
- an ordering policy (`NATURAL`, `NATURAL_PRESERVE_COMMENTS` or `SORTED`);
- the clauses (`ModuleInfoItem`) in insertion order.

A clause has:

- a kind (`requires`, `exports`, `opens`, `uses` or `provides`);
- a target;
- the `transitive` and `static` flags;
- the `to`/`with` qualifier list;
- the comment lines written above it.

The model covers these operations:

- `contents()` and `contents(false)`: the canonical text, with and without the generated-file marker line.
- The three orderings.
- `first(target)` and `firstUnqualifiedPackageExport()`.
- `mergeCreate`, including the refusal to merge a descriptor with itself.
- `ModuleInfoUtil.addIfAbsent` and the item helpers of `ModuleInfoUtil`.
- `create(text, ordering)`, the reader. It refuses a clause that holds a block comment.

Every exact-text assertion of `ModuleInfoDescriptorTest` about a descriptor built in the test, or about a literal text, is a lemma here (module `ModuleInfoScenarios`). The assertions about the loaded resource are covered by general lemmas instead (see "## Left out"). The general properties are proved for every descriptor:

- reading back what is written;
- idempotence of the orderings;
- lookups;
- merging.

**The request filter of the REST-client integration test.** `GreetResourceFilter.extractDynamicPort` takes the text of the server's URI. It finds the last `:` with `lastIndexOf` and the next `/` with `indexOf`, falling back to the end of the text, and returns the text in between. `filter` then replaces every `8080` in a request URI with that port, as Java's `String.replace` does. Both are pure functions of strings here.

Modules and files:

| file | module | contents |
|---|---|---|
| `wrappers.dfy` | `Wrappers` | `Option`, `Result` |
| `text.dfy` | `Text` | Java `trim`, `indexOf`, `lastIndexOf`; joining, splitting into lines, tokens |
| `sorting.dfy` | `Sorting` | stable insertion sort over a given order; `String.compareTo` order |
| `module_info_item.dfy` | `ModuleInfoItem` | clause kinds, items, how one clause is written |
| `module_info_ordering.dfy` | `ModuleInfoOrdering` | the three policies and the items each one emits |
| `module_info_descriptor.dfy` | `ModuleInfoDescriptor` | descriptor, builder, lookups, `contents`, `mergeCreate` |
| `module_info_util.dfy` | `ModuleInfoUtil` | item helpers, `addIfAbsent` |
| `module_info_parser.dfy` | `ModuleInfoParser` | `create(text, ordering)` |
| `module_info_round_trip.dfy` | `ModuleInfoRoundTrip` | reading back what `contents` writes |
| `scenario_text.dfy` | `ScenarioText` | literal lines and URIs, assembled from their pieces |
| `module_info_scenarios.dfy` | `ModuleInfoScenarios` | the test's assertions, one lemma each |
| `greet_resource_filter.dfy` | `GreetResourceFilter` | port extraction and the `8080` replacement |

The implementation classes `ModuleInfoDescriptor`, `ModuleInfoItem`, `ModuleInfoUtil` and `ModuleInfoOrdering` are not part of this model's source. Their behaviour comes from the assertions of `ModuleInfoDescriptorTest.java`. Where the test is silent, the model makes a choice, and the choices are listed under "## Left out".

## Model

| member | source | states |
|---|---|---|
| ModuleInfoDescriptor.Builder | pico/tools/src/test/java/io/helidon/pico/tools/ModuleInfoDescriptorTest.java:36-43 | a fresh builder is named `unnamed`, has no description and no items, and keeps comments in natural order |
| ModuleInfoDescriptor.AddItem | pico/tools/src/test/java/io/helidon/pico/tools/ModuleInfoDescriptorTest.java:44-46 | adding puts the item last and leaves the earlier items, name, description and ordering as they were |
| ModuleInfoDescriptor.First | pico/tools/src/test/java/io/helidon/pico/tools/ModuleInfoDescriptorTest.java:110-111 | there is a result exactly when some item has the target, and it is the earliest such item, of any kind |
| ModuleInfoDescriptor.FirstUnqualifiedPackageExport | pico/tools/src/test/java/io/helidon/pico/tools/ModuleInfoDescriptorTest.java:108-109 | there is a result exactly when some `exports` has no `to` list, and it is the package of the first one; qualified exports before it are skipped |
| ModuleInfoDescriptor.Contents | pico/tools/src/test/java/io/helidon/pico/tools/ModuleInfoDescriptorTest.java:38-43 | the text ends with the closing brace, with no line break after it |
| ModuleInfoDescriptor.ItemsLinesSnoc | pico/tools/src/test/java/io/helidon/pico/tools/ModuleInfoDescriptorTest.java:58-83 | adding an item appends its lines after those already written, so clauses appear in insertion order |
| ModuleInfoDescriptor.GeneratedMarkerOnlyDifference | pico/tools/src/test/java/io/helidon/pico/tools/ModuleInfoDescriptorTest.java:159-170 | `contents()` and `contents(false)` differ by exactly the generated-file marker line and its line break |
| ModuleInfoDescriptor.MergeCreate | pico/tools/src/test/java/io/helidon/pico/tools/ModuleInfoDescriptorTest.java:211-228 | merging fails exactly when both sides are the same object, with the message `can't merge with self`; otherwise the result keeps self's ordering, takes name and description from self unless self has none, and holds the clauses of both sides; every `to`/`with` name of either side is listed by the merged clause with its kind and target, and a merged clause lists no name that neither side gave that clause |
| ModuleInfoDescriptor.MergeItemsKeys | pico/tools/src/test/java/io/helidon/pico/tools/ModuleInfoDescriptorTest.java:217-228 | the merged list holds every (kind, target) clause of either list and no other |
| ModuleInfoDescriptor.MergeItemsQualifiers | pico/tools/src/test/java/io/helidon/pico/tools/ModuleInfoDescriptorTest.java:217-228 | the qualifier lists of matching clauses are united: every qualifier of either list is listed by a merged item with the same kind and target, and every qualifier of a merged item comes from an item with its clause |
| ModuleInfoDescriptor.MergeItemsKeepsPrefix | pico/tools/src/test/java/io/helidon/pico/tools/ModuleInfoDescriptorTest.java:223-228 | self's items come first and keep their place and content; only their qualifier lists can grow, at the end |
| ModuleInfoDescriptor.MergeItemsUnique | pico/tools/src/test/java/io/helidon/pico/tools/ModuleInfoDescriptorTest.java:214-215 | a merge never creates a second item for a clause that is already present |
| ModuleInfoDescriptor.MergeItemsAbsorbed | pico/tools/src/test/java/io/helidon/pico/tools/ModuleInfoDescriptorTest.java:214-215 | merging in items whose clauses and qualifiers are all present already changes nothing |
| ModuleInfoDescriptor.MergeItemsDisjoint | pico/tools/src/test/java/io/helidon/pico/tools/ModuleInfoDescriptorTest.java:217-228 | items with no clause in common with self's are appended after self's, in their own order |
| ModuleInfoDescriptor.MergeWithCopy | pico/tools/src/test/java/io/helidon/pico/tools/ModuleInfoDescriptorTest.java:214-215 | merging with a distinct but equal copy gives back the same descriptor, so `contents()` is unchanged |
| ModuleInfoItem.PlainClauseLines | pico/tools/src/test/java/io/helidon/pico/tools/ModuleInfoDescriptorTest.java:68 | a clause without qualifiers is four spaces, keyword, space, target and `;` |
| ModuleInfoItem.QualifiedClauseLines | pico/tools/src/test/java/io/helidon/pico/tools/ModuleInfoDescriptorTest.java:102-104 | with one qualifier the clause stays on one line: `exports P to M;`, `provides C with I;` |
| ModuleInfoItem.ContinuedClauseLines | pico/tools/src/test/java/io/helidon/pico/tools/ModuleInfoDescriptorTest.java:140-141 | with two qualifiers the first line ends with `,` and the second qualifier goes on a line of its own after three tabs |
| ModuleInfoItem.RequiresClauseLines | pico/tools/src/test/java/io/helidon/pico/tools/ModuleInfoDescriptorTest.java:161-164 | a `requires` is written with `transitive` and then `static` between keyword and module, each only when set |
| ModuleInfoUtil.RequiresModuleName | pico/tools/src/test/java/io/helidon/pico/tools/ModuleInfoDescriptorTest.java:46 | the helper's item is a `requires` of the module with exactly the given modifiers, and well-formed for a proper module name |
| ModuleInfoUtil.UsesExternalContract | pico/tools/src/test/java/io/helidon/pico/tools/ModuleInfoDescriptorTest.java:58 | the helper's item reads `uses <type>` |
| ModuleInfoUtil.ProvidesContract | pico/tools/src/test/java/io/helidon/pico/tools/ModuleInfoDescriptorTest.java:71 | the helper's item reads `provides <contract> with <implementation>` |
| ModuleInfoUtil.ExportsPackage | pico/tools/src/test/java/io/helidon/pico/tools/ModuleInfoDescriptorTest.java:93 | the helper's item reads `exports <package>` and is an unqualified export |
| ModuleInfoUtil.ExportsPackageTo | pico/tools/src/test/java/io/helidon/pico/tools/ModuleInfoDescriptorTest.java:92 | the helper's item reads `exports <package> to <module>` and is not an unqualified export |
| ModuleInfoUtil.AddIfAbsent | pico/tools/src/test/java/io/helidon/pico/tools/ModuleInfoDescriptorTest.java:232-245 | when an item with the target is present the descriptor is unchanged; otherwise the supplied item is added |
| ModuleInfoUtil.AddIfAbsentKeepsFirst | pico/tools/src/test/java/io/helidon/pico/tools/ModuleInfoDescriptorTest.java:232-251 | afterwards exactly one item has the target, and it is the one that was there first |
| ModuleInfoUtil.AddIfAbsentTwice | pico/tools/src/test/java/io/helidon/pico/tools/ModuleInfoDescriptorTest.java:232-251 | two calls for the same target keep only the first supplied item, with its precomments |
| ModuleInfoOrdering.EmittedItems | pico/tools/src/test/java/io/helidon/pico/tools/ModuleInfoDescriptorTest.java:115-143 | `NATURAL` keeps insertion order and drops comments; `NATURAL_PRESERVE_COMMENTS` keeps the items as they are; `SORTED` emits a permutation of the items, with sorted `to` lists, ordered by kind precedence and then by target |
| ModuleInfoOrdering.SortedEmission | pico/tools/src/test/java/io/helidon/pico/tools/ModuleInfoDescriptorTest.java:137-142 | under `SORTED` every earlier item has a kind of no later precedence; within a kind, its target comes first; its `to` list is sorted |
| ModuleInfoOrdering.EmittedQualifiersSorted | pico/tools/src/test/java/io/helidon/pico/tools/ModuleInfoDescriptorTest.java:140-141 | every item `SORTED` emits already lists its `to` names in sorted order |
| ModuleInfoOrdering.EmittedIdempotent | pico/tools/src/test/java/io/helidon/pico/tools/ModuleInfoDescriptorTest.java:184-186 | applying a policy to what it emitted changes nothing |
| Sorting.SortPermutes | pico/tools/src/test/java/io/helidon/pico/tools/ModuleInfoDescriptorTest.java:137-142 | sorting loses and adds nothing: the result is a permutation of the input |
| Sorting.SortOrdered | pico/tools/src/test/java/io/helidon/pico/tools/ModuleInfoDescriptorTest.java:137-142 | under a total order the sort's result is ordered |
| Sorting.SortOfOrdered | pico/tools/src/test/java/io/helidon/pico/tools/ModuleInfoDescriptorTest.java:137-142 | an already ordered sequence is left as it is |
| Sorting.SortIdempotent | pico/tools/src/test/java/io/helidon/pico/tools/ModuleInfoDescriptorTest.java:137-142 | sorting twice gives what sorting once gives |
| Sorting.StrLeAntisymmetric | pico/tools/src/test/java/io/helidon/pico/tools/ModuleInfoDescriptorTest.java:137-138 | two strings each at most the other are equal, so the string order decides every pair of distinct targets |
| Sorting.StrLeFirstDifference | pico/tools/src/test/java/io/helidon/pico/tools/ModuleInfoDescriptorTest.java:137-138 | of two strings with a common prefix, the one with the smaller character at the first difference comes first (`cn1` before `cn2`) |
| Sorting.SortStrings | pico/tools/src/test/java/io/helidon/pico/tools/ModuleInfoDescriptorTest.java:140-141 | the sorted `to` list is a permutation of the original and is in lexicographic order |
| ModuleInfoParser.Create | pico/tools/src/test/java/io/helidon/pico/tools/ModuleInfoDescriptorTest.java:147-168 | `create(text, ordering)`: a descriptor read keeps the ordering asked for, and under `NATURAL` no clause carries a comment; a refusal for an inner comment names the trimmed text of a line of the input that opens a block comment. `ParseStatement` states the refusal, and `RoundTrip` states what is read back |
| ModuleInfoParser.ParseStatement | pico/tools/src/test/java/io/helidon/pico/tools/ModuleInfoDescriptorTest.java:147-151 | a statement is refused as an inner comment exactly when one of its lines opens a block comment, and the error carries that line's trimmed text without `;` |
| ModuleInfoParser.ParseClauseWords | pico/tools/src/test/java/io/helidon/pico/tools/ModuleInfoDescriptorTest.java:159-170 | the words of every well-formed clause are read back as that clause |
| ModuleInfoRoundTrip.RoundTrip | pico/tools/src/test/java/io/helidon/pico/tools/ModuleInfoDescriptorTest.java:155-170 | reading the text written for a well-formed descriptor, under its own ordering, gives back the descriptor with the items that ordering emits, with or without the marker line |
| ModuleInfoRoundTrip.RoundTripPreservingComments | pico/tools/src/test/java/io/helidon/pico/tools/ModuleInfoDescriptorTest.java:172-175 | under `NATURAL_PRESERVE_COMMENTS`, reading `contents(false)` gives back the descriptor, and writing that gives back the same text |
| ModuleInfoRoundTrip.ReparseStable | pico/tools/src/test/java/io/helidon/pico/tools/ModuleInfoDescriptorTest.java:184-186 | under every ordering, reading a written text succeeds, and writing the result again reproduces the text |
| ModuleInfoScenarios.EmptyBuilderContents | pico/tools/src/test/java/io/helidon/pico/tools/ModuleInfoDescriptorTest.java:36-43 | an empty builder writes the marker line, `module unnamed {` and `}` |
| ModuleInfoScenarios.NamedRequiresContents | pico/tools/src/test/java/io/helidon/pico/tools/ModuleInfoDescriptorTest.java:44-56 | name, description and a `requires transitive` give the expected text, with the description block before the marker |
| ModuleInfoScenarios.NamedUsesContents | pico/tools/src/test/java/io/helidon/pico/tools/ModuleInfoDescriptorTest.java:58-69 | adding a `uses` clause appends its line |
| ModuleInfoScenarios.NamedProvidesContents | pico/tools/src/test/java/io/helidon/pico/tools/ModuleInfoDescriptorTest.java:71-83 | adding a `provides … with some.impl` clause appends its line |
| ModuleInfoScenarios.ExportsContents | pico/tools/src/test/java/io/helidon/pico/tools/ModuleInfoDescriptorTest.java:86-106 | the four clauses are written in insertion order under the default policy, the qualified export on one line |
| ModuleInfoScenarios.ExportsLookups | pico/tools/src/test/java/io/helidon/pico/tools/ModuleInfoDescriptorTest.java:108-111 | the first unqualified export is `export2`, and the item for `cn1` is the `provides` clause |
| ModuleInfoScenarios.SortedQualifiers | pico/tools/src/test/java/io/helidon/pico/tools/ModuleInfoDescriptorTest.java:125-126 | the two `to` modules of `export1` sort with `another.private.module.name` first |
| ModuleInfoScenarios.SortedItems | pico/tools/src/test/java/io/helidon/pico/tools/ModuleInfoDescriptorTest.java:116-129 | with `provides` ranked before `exports`, `SORTED` emits `cn1`, `cn2`, `export1` with its sorted list, and `export2` |
| ModuleInfoScenarios.SortedContents | pico/tools/src/test/java/io/helidon/pico/tools/ModuleInfoDescriptorTest.java:115-143 | the sorted descriptor's text matches the expected lines, including the comment line and the continuation line |
| ModuleInfoScenarios.InnerCommentRejected | pico/tools/src/test/java/io/helidon/pico/tools/ModuleInfoDescriptorTest.java:147-151 | a declaration whose first clause line opens a block comment is refused, naming that clause trimmed and without its `;`, whatever the line's indentation, what follows it and the ordering |
| ModuleInfoScenarios.InnerCommentNotSupported | pico/tools/src/test/java/io/helidon/pico/tools/ModuleInfoDescriptorTest.java:147-151 | the test's text is refused under every ordering, with the exact message of the test |
| ModuleInfoScenarios.MergeWithSelfRefused | pico/tools/src/test/java/io/helidon/pico/tools/ModuleInfoDescriptorTest.java:211-212 | merging a descriptor with itself fails with `can't merge with self` |
| ModuleInfoScenarios.MergeOneTwo | pico/tools/src/test/java/io/helidon/pico/tools/ModuleInfoDescriptorTest.java:217-223 | merging `{exports one}` with `{exports two}` gives the first descriptor with `exports two` appended |
| ModuleInfoScenarios.MergeOneTwoContents | pico/tools/src/test/java/io/helidon/pico/tools/ModuleInfoDescriptorTest.java:224-228 | its `contents(false)` is `module unnamed {`, `exports one;`, `exports two;`, `}` |
| ModuleInfoScenarios.AddIfAbsentContents | pico/tools/src/test/java/io/helidon/pico/tools/ModuleInfoDescriptorTest.java:232-251 | after two calls for `external`, the text holds one `uses external;` under the first supplier's comment `// 1` |
| Text.LastIndexOf | tests/integration/restclient-connector/src/main/java/io/helidon/tests/integration/resclient/connector/GreetResourceFilter.java:43 | the result is -1 or an index holding the character, and no later index holds it |
| Text.IndexOf | tests/integration/restclient-connector/src/main/java/io/helidon/tests/integration/resclient/connector/GreetResourceFilter.java:44 | the result is -1 when no index from `from` on holds the character, and otherwise the least such index |
| GreetResourceFilter.ExtractDynamicPort | tests/integration/restclient-connector/src/main/java/io/helidon/tests/integration/resclient/connector/GreetResourceFilter.java:40-47 | the substring never fails; the port holds no `:` or `/`; it starts just after the last `:` (or at the front) and ends at the next `/` or at the end |
| GreetResourceFilter.PortAtUnique | tests/integration/restclient-connector/src/main/java/io/helidon/tests/integration/resclient/connector/GreetResourceFilter.java:43-46 | at most one substring of a URI has that position and shape, so the contract above determines the port |
| GreetResourceFilter.ExtractDynamicPortSteps | tests/integration/restclient-connector/src/main/java/io/helidon/tests/integration/resclient/connector/GreetResourceFilter.java:43-46 | the index arithmetic agrees with a two-step reading: take the text after the last `:`, then its part before the first `/` |
| GreetResourceFilter.PortOfServerUri | tests/integration/restclient-connector/src/main/java/io/helidon/tests/integration/resclient/connector/GreetResourceFilter.java:43-46 | a URI `<host>:<port><path>`, whose path is empty or starts with `/` and has no `:`, yields exactly its port |
| GreetResourceFilter.NoColonNoPort | tests/integration/restclient-connector/src/main/java/io/helidon/tests/integration/resclient/connector/GreetResourceFilter.java:43-46 | with no `:` and no `/`, the whole text is taken as the port |
| GreetResourceFilter.ReplaceAll | tests/integration/restclient-connector/src/main/java/io/helidon/tests/integration/resclient/connector/GreetResourceFilter.java:36 | a string without the target comes back unchanged, and so does every string when the replacement is the target |
| GreetResourceFilter.ReplaceLeftmost | tests/integration/restclient-connector/src/main/java/io/helidon/tests/integration/resclient/connector/GreetResourceFilter.java:36 | the leftmost occurrence is replaced, the text before it is kept, and scanning resumes after it, so occurrences never overlap |
| GreetResourceFilter.Filter | tests/integration/restclient-connector/src/main/java/io/helidon/tests/integration/resclient/connector/GreetResourceFilter.java:34-37 | a request URI without `8080` is left unchanged, and so is every URI when the port is `8080` |
| GreetResourceFilter.FilterRewritesPort | tests/integration/restclient-connector/src/main/java/io/helidon/tests/integration/resclient/connector/GreetResourceFilter.java:36 | a URI naming `8080` once is rewritten at that place only, and host and path are kept |
| GreetResourceFilter.FilterRequestUri | tests/integration/restclient-connector/src/main/java/io/helidon/tests/integration/resclient/connector/GreetResourceFilter.java:36 | `<host>8080<path>`, where host and path hold no `8`, becomes `<host><port><path>` |
| GreetResourceFilter.FilterExample | tests/integration/restclient-connector/src/main/java/io/helidon/tests/integration/resclient/connector/GreetResourceFilter.java:34-46 | a request to `http://localhost:8080/greet` is sent to port 41234 for a server at `http://localhost:41234/` |

## Left out

- File I/O is not modelled: `save`, loading a resource or a file, and temporary files. The texts read or written are values here.
- The resource `testsubjects/m0._java_` is not part of this model. The assertions about it are stated for every well-formed descriptor instead (`RoundTrip`, `ReparseStable`, `MergeWithCopy`), not for that one file.
- The names `ExternalContracts.class.getName()` and `Contract.class.getName()` are string parameters of the scenario lemmas. Class-name resolution is not modelled.
- The type named in the generated-file marker is the constant `GeneratorType`.
- `open module` declarations are not modelled.
- Description comments are single-line. A description spanning several lines is outside the model.
- Line breaks are `\n` only. `\r\n` input is not modelled.
- Under `SORTED`, the precedence of kinds is a parameter (`Sorted(kindOrder)`). The test shows only that `provides` comes before `exports`, so `SortedItems` and `SortedContents` require just that.
- Item-builder validation in the implementation (for example, conflicting kind flags) is not modelled. An item has exactly one kind by construction.
- The framework parts of `filter` are not modelled:
  - the `Contexts.globalContext()` lookup;
  - `URI.create`;
  - the `ClientRequestContext` mutation.

  The server URI and the request URI are their strings.
- GreetResourceFilter.ReplaceAll: Java's behaviour for an empty target is not modelled, because the only call passes `8080`. The function requires a non-empty target.
- ModuleInfoRoundTrip.RoundTripPreservingComments: stated for texts in the form `contents(false)` writes. An arbitrary hand-written text, like the loaded resource, is covered only when it is already in that form.
- ModuleInfoDescriptor.MergeWithCopy: stated for descriptors that list no clause twice. With a duplicated clause, the copy's qualifiers are folded into the first occurrence.
- ModuleInfoParser.ParseItems: the reader does not keep every line, even under `NATURAL_PRESERVE_COMMENTS`. Blank lines between clauses are dropped. `//` lines after the last clause, just before `}`, are dropped. `//` lines before the `module` line are skipped with the generated-file marker. A hand-written text holding any of these does not come back unchanged from reading and writing. That is why `RoundTripPreservingComments` is stated only for texts in the form `contents(false)` writes.
- Sorting.StrLe: compares characters as Unicode code points. Java's `compareTo` compares UTF-16 code units, so the two orders differ for strings holding characters outside the Basic Multilingual Plane. Module names, package names and class names in the test are ASCII.

The test does not show the following behaviours; the model makes a choice:

- The builder's default ordering is `NATURAL_PRESERVE_COMMENTS`. The add-if-absent test writes a precomment with no ordering set, and only a comment-keeping policy does that.
- `NATURAL` drops precomments. `SORTED` keeps them.
- A `requires` with both flags is written `requires transitive static`.
- Third and later qualifiers each go on a continuation line, as the second one does.
- A merged item with the same kind and target as one of self's adds its new qualifiers to self's item. Otherwise self's item is kept as it is. Its `transitive` and `static` flags and its precomments stay, and the other item's are dropped. For example, `requires a` merged with `requires transitive a` gives `requires a`.
- Name and description come from the other side only when self has the default name or no description.
- The text of the `Malformed` error (a text that is not a module declaration) is not fixed by the test. The model uses `Unable to parse: '<line>'`.
- The reader ends the declaration at a line that is `}` once trimmed, and accepts only blank lines after it.
