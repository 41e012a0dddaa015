/** A module declaration as a value: its name, an optional description comment, the ordering policy
    and the clauses in insertion order; how it is written out, looked up and merged. */
module ModuleInfoDescriptor {
  import opened Wrappers
  import opened Text
  import opened ModuleInfoItem
  import opened ModuleInfoOrdering

  /** The name of a descriptor built without one. */
  const DefaultName := "unnamed"

  /** The type named as generator and trigger in the generated-file marker. */
  const GeneratorType := "io.helidon.pico.tools.ModuleInfoDescriptor"

  /** The generated-file marker line written above the declaration. */
  const GeneratedMarker := "// @io.helidon.common.Generated(value = \"" + GeneratorType
                           + "\", trigger = \"" + GeneratorType + "\")"

  datatype Descriptor = Descriptor(
    name: string,
    description: Option<string>,
    ordering: Ordering,
    items: seq<Item>
  )

  /** The failures of the engine: a clause with a block comment inside it and a text that is not a
      module declaration (a `ToolsException` in the source), and a merge of a descriptor with itself
      (an `IllegalArgumentException`). */
  datatype Error = InnerComment(clause: string) | Malformed(line: string) | MergeWithSelf

  function Message(e: Error): string {
    match e
    case InnerComment(clause) => "Unable to parse lines that have inner comments: '" + clause + "'"
    case Malformed(line) => "Unable to parse: '" + line + "'"
    case MergeWithSelf => "can't merge with self"
  }

  // ---------------------------------------------------------------- builder

  /** `ModuleInfoDescriptor.builder()`: no name given, no description, comment-keeping natural order,
      no items. */
  function Builder(): (d: Descriptor)
    ensures d.name == DefaultName && d.description.None? && |d.items| == 0
    ensures d.ordering == NaturalPreserveComments
  {
    Descriptor(DefaultName, None, NaturalPreserveComments, [])
  }

  /** `Builder.addItem`: appends, so that items keep insertion order. */
  function AddItem(d: Descriptor, it: Item): (r: Descriptor)
    ensures |r.items| == |d.items| + 1 && r.items[..|d.items|] == d.items && r.items[|d.items|] == it
    ensures r.(items := d.items) == d
  {
    d.(items := d.items + [it])
  }

  // ---------------------------------------------------------------- lookups

  /** Index of the first element satisfying `p`. */
  function FirstIndex<T>(s: seq<T>, p: T -> bool): (r: Option<nat>)
    ensures r.Some? ==> r.value < |s| && p(s[r.value])
    ensures r.Some? ==> forall j :: 0 <= j < r.value ==> !p(s[j])
    ensures r.None? ==> forall j :: 0 <= j < |s| ==> !p(s[j])
  {
    if |s| == 0 then None
    else if p(s[0]) then Some(0)
    else match FirstIndex(s[1..], p)
      case None => None
      case Some(i) => Some(i + 1)
  }

  /** The index `FirstIndex` finds is the one before which nothing satisfies `p`. */
  lemma FirstIndexAt<T>(s: seq<T>, p: T -> bool, i: nat)
    requires i < |s| && p(s[i]) && forall j :: 0 <= j < i ==> !p(s[j])
    ensures FirstIndex(s, p) == Some(i)
  {
  }

  /** `first(target)`: the first item, of any kind, whose target is `target`. */
  function First(d: Descriptor, target: string): (r: Option<Item>)
    ensures r.Some? <==> exists i :: 0 <= i < |d.items| && d.items[i].target == target
    ensures r.Some? ==> exists i :: 0 <= i < |d.items| && d.items[i] == r.value && r.value.target == target
                                   && forall j :: 0 <= j < i ==> d.items[j].target != target
  {
    match FirstIndex(d.items, (it: Item) => it.target == target)
    case None => None
    case Some(i) => Some(d.items[i])
  }

  /** An `exports` clause without a `to` list. */
  predicate IsUnqualifiedExport(it: Item) {
    it.kind == Exports && |it.withOrTo| == 0
  }

  /** `firstUnqualifiedPackageExport()`: the package of the first `exports` clause that has no `to`
      list; qualified exports before it are skipped. */
  function FirstUnqualifiedPackageExport(d: Descriptor): (r: Option<string>)
    ensures r.Some? <==> exists i :: 0 <= i < |d.items| && IsUnqualifiedExport(d.items[i])
    ensures r.Some? ==> exists i :: 0 <= i < |d.items| && IsUnqualifiedExport(d.items[i])
                                   && d.items[i].target == r.value
                                   && forall j :: 0 <= j < i ==> !IsUnqualifiedExport(d.items[j])
  {
    match FirstIndex(d.items, IsUnqualifiedExport)
    case None => None
    case Some(i) => Some(d.items[i].target)
  }

  // ---------------------------------------------------------------- rendering

  /** The description comment as a `/** */` block of three lines. */
  function DescriptionLines(description: Option<string>): seq<string> {
    match description
    case None => []
    case Some(text) => ["/**", " * " + text, " */"]
  }

  function ItemsLines(items: seq<Item>, keepComments: bool): seq<string> {
    if |items| == 0 then []
    else ItemLines(items[0], keepComments) + ItemsLines(items[1..], keepComments)
  }

  /** Appending an item appends its lines, so the clauses are written in the order the items hold. */
  lemma {:induction false} ItemsLinesSnoc(items: seq<Item>, it: Item, keepComments: bool)
    ensures ItemsLines(items + [it], keepComments) == ItemsLines(items, keepComments) + ItemLines(it, keepComments)
    decreases |items|
  {
    if |items| == 0 {
      assert items + [it] == [it];
    } else {
      assert (items + [it])[1..] == items[1..] + [it];
      ItemsLinesSnoc(items[1..], it, keepComments);
      AppendAssoc(ItemLines(items[0], keepComments), ItemsLines(items[1..], keepComments), ItemLines(it, keepComments));
    }
  }

  /** The lines from the `module` line through the closing brace. */
  function BodyLines(d: Descriptor): seq<string> {
    ["module " + d.name + " {"]
    + ItemsLines(EmittedItems(d.items, d.ordering), KeepsComments(d.ordering))
    + ["}"]
  }

  function DescriptorLines(d: Descriptor, includeGenerated: bool): seq<string> {
    DescriptionLines(d.description) + (if includeGenerated then [GeneratedMarker] else []) + BodyLines(d)
  }

  /** `contents(includeGenerated)`; `contents()` is `Contents(d, true)`. The text ends with the closing
      brace and no line break after it. */
  function Contents(d: Descriptor, includeGenerated: bool): (r: string)
    ensures |r| > 0 && r[|r| - 1] == '}'
  {
    var lines := DescriptorLines(d, includeGenerated);
    JoinEnds(lines, "\n");
    Join(lines, "\n")
  }

  /** `contents()` and `contents(false)` differ exactly in the generated-file marker line. */
  lemma GeneratedMarkerOnlyDifference(d: Descriptor)
    ensures exists before, after ::
      && Contents(d, true) == before + GeneratedMarker + "\n" + after
      && Contents(d, false) == before + after
  {
    var desc := DescriptionLines(d.description);
    var body := BodyLines(d);
    assert DescriptorLines(d, true) == desc + ([GeneratedMarker] + body);
    assert DescriptorLines(d, false) == desc + body;
    JoinInsert(desc, GeneratedMarker, body);
  }

  // ---------------------------------------------------------------- merge

  type Key = (Kind, string)

  function KeyOf(it: Item): Key {
    (it.kind, it.target)
  }

  /** The (kind, target) pairs of the items. */
  function Keys(items: seq<Item>): (r: set<Key>)
    ensures forall k :: k in r <==> exists i :: 0 <= i < |items| && KeyOf(items[i]) == k
  {
    set i | 0 <= i < |items| :: KeyOf(items[i])
  }

  /** No two items share kind and target. */
  predicate UniqueClauses(items: seq<Item>) {
    forall i, j :: 0 <= i < j < |items| ==> KeyOf(items[i]) != KeyOf(items[j])
  }

  /** The names of `a` followed by the names of `b` that are not yet listed. */
  function Union(a: seq<string>, b: seq<string>): (r: seq<string>)
    ensures |r| >= |a| && r[..|a|] == a
    ensures forall x :: x in r <==> x in a || x in b
    ensures (forall x :: x in b ==> x in a) ==> r == a
    decreases |b|
  {
    if |b| == 0 then a
    else if b[0] in a then Union(a, b[1..])
    else
      var r := Union(a + [b[0]], b[1..]);
      assert r[..|a|] == (a + [b[0]])[..|a|];
      r
  }

  /** The item kept by a merge: the first one's, with the other's qualifiers added to its list. */
  function MergeItem(here: Item, there: Item): (r: Item)
    ensures r.(withOrTo := here.withOrTo) == here
    ensures StartsWith(r.withOrTo, here.withOrTo)
    ensures forall x :: x in r.withOrTo <==> x in here.withOrTo || x in there.withOrTo
  {
    here.(withOrTo := Union(here.withOrTo, there.withOrTo))
  }

  /** Folds `others` into `acc`: an item whose kind and target are already present is merged into the
      first such item, any other item is appended. */
  function MergeItems(acc: seq<Item>, others: seq<Item>): (r: seq<Item>)
    decreases |others|
  {
    if |others| == 0 then acc
    else
      var there := others[0];
      match FirstIndex(acc, (it: Item) => KeyOf(it) == KeyOf(there))
      case Some(i) => MergeItems(acc[i := MergeItem(acc[i], there)], others[1..])
      case None => MergeItems(acc + [there], others[1..])
  }

  lemma KeysCons(items: seq<Item>)
    requires |items| > 0
    ensures Keys(items) == {KeyOf(items[0])} + Keys(items[1..])
  {
    forall k | k in Keys(items)
      ensures k in {KeyOf(items[0])} + Keys(items[1..])
    {
      var i :| 0 <= i < |items| && KeyOf(items[i]) == k;
      if i > 0 {
        assert KeyOf(items[1..][i - 1]) == k;
      }
    }
    forall k | k in Keys(items[1..])
      ensures k in Keys(items)
    {
      var i :| 0 <= i < |items[1..]| && KeyOf(items[1..][i]) == k;
      assert KeyOf(items[i + 1]) == k;
    }
  }

  lemma KeysUpdate(items: seq<Item>, i: nat, it: Item)
    requires i < |items| && KeyOf(it) == KeyOf(items[i])
    ensures Keys(items[i := it]) == Keys(items)
  {
    var items' := items[i := it];
    forall k | k in Keys(items)
      ensures k in Keys(items')
    {
      var j :| 0 <= j < |items| && KeyOf(items[j]) == k;
      assert KeyOf(items'[j]) == k;
    }
    forall k | k in Keys(items')
      ensures k in Keys(items)
    {
      var j :| 0 <= j < |items'| && KeyOf(items'[j]) == k;
      assert KeyOf(items[j]) == k;
    }
  }

  lemma KeysSnoc(items: seq<Item>, it: Item)
    ensures Keys(items + [it]) == Keys(items) + {KeyOf(it)}
  {
    var items' := items + [it];
    forall k | k in Keys(items')
      ensures k in Keys(items) + {KeyOf(it)}
    {
      var j :| 0 <= j < |items'| && KeyOf(items'[j]) == k;
      if j < |items| {
        assert KeyOf(items[j]) == k;
      }
    }
    assert KeyOf(items'[|items|]) == KeyOf(it);
    forall k | k in Keys(items)
      ensures k in Keys(items')
    {
      var j :| 0 <= j < |items| && KeyOf(items[j]) == k;
      assert KeyOf(items'[j]) == k;
    }
  }

  /** The merged list holds every clause of either list, and no other. */
  lemma {:induction false} MergeItemsKeys(acc: seq<Item>, others: seq<Item>)
    ensures Keys(MergeItems(acc, others)) == Keys(acc) + Keys(others)
    decreases |others|
  {
    if |others| > 0 {
      var there := others[0];
      KeysCons(others);
      match FirstIndex(acc, (it: Item) => KeyOf(it) == KeyOf(there))
      case Some(i) =>
        KeysUpdate(acc, i, MergeItem(acc[i], there));
        assert KeyOf(acc[i]) in Keys(acc);
        MergeItemsKeys(acc[i := MergeItem(acc[i], there)], others[1..]);
      case None =>
        KeysSnoc(acc, there);
        MergeItemsKeys(acc + [there], others[1..]);
    }
  }

  /** The items of the first list keep their place, kind, target, modifiers and precomments; their
      qualifier lists only grow at the end. */
  lemma {:induction false} MergeItemsKeepsPrefix(acc: seq<Item>, others: seq<Item>)
    ensures var r := MergeItems(acc, others);
      && |r| >= |acc|
      && forall i :: 0 <= i < |acc| ==>
           && r[i].(withOrTo := acc[i].withOrTo) == acc[i]
           && StartsWith(r[i].withOrTo, acc[i].withOrTo)
    decreases |others|
  {
    if |others| > 0 {
      var there := others[0];
      match FirstIndex(acc, (it: Item) => KeyOf(it) == KeyOf(there))
      case Some(i) =>
        var acc' := acc[i := MergeItem(acc[i], there)];
        MergeItemsKeepsPrefix(acc', others[1..]);
        var r := MergeItems(acc, others);
        forall j | 0 <= j < |acc|
          ensures r[j].(withOrTo := acc[j].withOrTo) == acc[j]
          ensures StartsWith(r[j].withOrTo, acc[j].withOrTo)
        {
          var w := acc[j].withOrTo;
          var w' := acc'[j].withOrTo;
          assert r[j].withOrTo[..|w'|] == w';
          assert w'[..|w|] == w;
          assert r[j].withOrTo[..|w|] == r[j].withOrTo[..|w'|][..|w|];
        }
      case None =>
        var acc' := acc + [there];
        MergeItemsKeepsPrefix(acc', others[1..]);
        var r := MergeItems(acc, others);
        forall j | 0 <= j < |acc|
          ensures r[j].(withOrTo := acc[j].withOrTo) == acc[j]
          ensures StartsWith(r[j].withOrTo, acc[j].withOrTo)
        {
          assert acc'[j] == acc[j];
        }
    }
  }

  /** A merge never introduces a second item for a clause already present. */
  lemma {:induction false} MergeItemsUnique(acc: seq<Item>, others: seq<Item>)
    requires UniqueClauses(acc)
    ensures UniqueClauses(MergeItems(acc, others))
    decreases |others|
  {
    if |others| > 0 {
      var there := others[0];
      match FirstIndex(acc, (it: Item) => KeyOf(it) == KeyOf(there))
      case Some(i) =>
        var acc' := acc[i := MergeItem(acc[i], there)];
        assert forall j :: 0 <= j < |acc| ==> KeyOf(acc'[j]) == KeyOf(acc[j]);
        MergeItemsUnique(acc', others[1..]);
      case None =>
        var acc' := acc + [there];
        assert forall j :: 0 <= j < |acc| ==> KeyOf(acc'[j]) == KeyOf(acc[j]);
        MergeItemsUnique(acc', others[1..]);
    }
  }

  /** The first item of `items` with the clause of `it` already lists every qualifier of `it`. */
  predicate Absorbs(items: seq<Item>, it: Item) {
    exists i :: 0 <= i < |items| && KeyOf(items[i]) == KeyOf(it)
                && (forall j :: 0 <= j < i ==> KeyOf(items[j]) != KeyOf(it))
                && forall x :: x in it.withOrTo ==> x in items[i].withOrTo
  }

  /** An absorbed item leaves the list as it is. */
  lemma MergeAbsorbedStep(acc: seq<Item>, others: seq<Item>)
    requires |others| > 0 && Absorbs(acc, others[0])
    ensures MergeItems(acc, others) == MergeItems(acc, others[1..])
  {
    var there := others[0];
    var i :| 0 <= i < |acc| && KeyOf(acc[i]) == KeyOf(there)
             && (forall j :: 0 <= j < i ==> KeyOf(acc[j]) != KeyOf(there))
             && forall x :: x in there.withOrTo ==> x in acc[i].withOrTo;
    assert FirstIndex(acc, (it: Item) => KeyOf(it) == KeyOf(there)) == Some(i);
    MergeFoundStep(acc, others, i);
    MergeItemAbsorbed(acc[i], there);
    assert acc[i := acc[i]] == acc;
  }

  lemma MergeFoundStep(acc: seq<Item>, others: seq<Item>, i: nat)
    requires |others| > 0 && FirstIndex(acc, (it: Item) => KeyOf(it) == KeyOf(others[0])) == Some(i)
    ensures i < |acc| && MergeItems(acc, others) == MergeItems(acc[i := MergeItem(acc[i], others[0])], others[1..])
  {
  }

  lemma MergeItemAbsorbed(here: Item, there: Item)
    requires forall x :: x in there.withOrTo ==> x in here.withOrTo
    ensures MergeItem(here, there) == here
  {
  }

  /** Merging items whose clauses are all present, with no new qualifier, changes nothing. */
  lemma {:induction false} MergeItemsAbsorbed(acc: seq<Item>, others: seq<Item>)
    requires forall k :: 0 <= k < |others| ==> Absorbs(acc, others[k])
    ensures MergeItems(acc, others) == acc
    decreases |others|
  {
    if |others| > 0 {
      MergeAbsorbedStep(acc, others);
      assert forall k :: 0 <= k < |others[1..]| ==> others[1..][k] == others[k + 1];
      MergeItemsAbsorbed(acc, others[1..]);
    }
  }

  /** An item whose clause is new is appended. */
  lemma MergeDisjointStep(acc: seq<Item>, others: seq<Item>)
    requires |others| > 0 && Keys(acc) !! Keys(others)
    ensures MergeItems(acc, others) == MergeItems(acc + [others[0]], others[1..])
  {
    var there := others[0];
    assert KeyOf(there) !in Keys(acc) by {
      assert KeyOf(there) in Keys(others);
    }
    assert FirstIndex(acc, (it: Item) => KeyOf(it) == KeyOf(there)) == None;
  }

  /** After appending the first item, the rest are still new and still distinct. */
  lemma DisjointTail(acc: seq<Item>, others: seq<Item>)
    requires |others| > 0 && Keys(acc) !! Keys(others) && UniqueClauses(others)
    ensures Keys(acc + [others[0]]) !! Keys(others[1..])
    ensures UniqueClauses(others[1..])
  {
    KeysSnoc(acc, others[0]);
    KeysCons(others);
    forall j | 0 <= j < |others| - 1
      ensures KeyOf(others[1..][j]) != KeyOf(others[0])
    {
      assert others[1..][j] == others[j + 1];
    }
  }

  /** Merging items with no clause in common with `acc`, and none twice, appends them. */
  lemma {:induction false} MergeItemsDisjoint(acc: seq<Item>, others: seq<Item>)
    requires Keys(acc) !! Keys(others)
    requires UniqueClauses(others)
    ensures MergeItems(acc, others) == acc + others
    decreases |others|
  {
    if |others| > 0 {
      MergeDisjointStep(acc, others);
      DisjointTail(acc, others);
      MergeItemsDisjoint(acc + [others[0]], others[1..]);
      AppendFirst(acc, others);
    }
  }

  /** Every qualifier of an item of `src` is listed by an item of `r` with the same clause. */
  predicate QualifiersCovered(src: seq<Item>, r: seq<Item>) {
    forall it, x :: it in src && x in it.withOrTo ==>
      exists i :: 0 <= i < |r| && KeyOf(r[i]) == KeyOf(it) && x in r[i].withOrTo
  }

  /** Every qualifier of an item of `r` comes from an item of `src` with the same clause. */
  predicate QualifiersFrom(r: seq<Item>, src: seq<Item>) {
    forall i, x :: 0 <= i < |r| && x in r[i].withOrTo ==>
      exists it :: it in src && KeyOf(it) == KeyOf(r[i]) && x in it.withOrTo
  }

  /** Merging `there` into `acc[i]` loses no qualifier of `acc` or of `there`. */
  lemma CoveredStep(acc: seq<Item>, others: seq<Item>, i: nat, r: seq<Item>)
    requires |others| > 0 && i < |acc| && KeyOf(acc[i]) == KeyOf(others[0])
    requires QualifiersCovered(acc[i := MergeItem(acc[i], others[0])] + others[1..], r)
    ensures QualifiersCovered(acc + others, r)
  {
    var acc' := acc[i := MergeItem(acc[i], others[0])];
    var src' := acc' + others[1..];
    forall it, x | it in acc + others && x in it.withOrTo
      ensures exists k :: 0 <= k < |r| && KeyOf(r[k]) == KeyOf(it) && x in r[k].withOrTo
    {
      if it in acc {
        var j :| 0 <= j < |acc| && acc[j] == it;
        if j == i {
          assert acc'[i] in src' && x in acc'[i].withOrTo;
        } else {
          assert acc'[j] in src' && acc'[j] == it;
        }
      } else {
        var j :| 0 <= j < |others| && others[j] == it;
        if j == 0 {
          assert acc'[i] in src' && x in acc'[i].withOrTo && KeyOf(acc'[i]) == KeyOf(it);
        } else {
          assert others[1..][j - 1] in src' && others[1..][j - 1] == it;
        }
      }
    }
  }

  /** Every qualifier of the merged `acc[i]` was listed by `acc[i]` or by `there`. */
  lemma FromStep(acc: seq<Item>, others: seq<Item>, i: nat, r: seq<Item>)
    requires |others| > 0 && i < |acc| && KeyOf(acc[i]) == KeyOf(others[0])
    requires QualifiersFrom(r, acc[i := MergeItem(acc[i], others[0])] + others[1..])
    ensures QualifiersFrom(r, acc + others)
  {
    var acc' := acc[i := MergeItem(acc[i], others[0])];
    var src' := acc' + others[1..];
    forall k, x | 0 <= k < |r| && x in r[k].withOrTo
      ensures exists it :: it in acc + others && KeyOf(it) == KeyOf(r[k]) && x in it.withOrTo
    {
      var it :| it in src' && KeyOf(it) == KeyOf(r[k]) && x in it.withOrTo;
      if it in acc' {
        var j :| 0 <= j < |acc'| && acc'[j] == it;
        if j == i {
          if x in acc[i].withOrTo {
            assert acc[i] in acc + others;
          } else {
            assert others[0] in acc + others;
          }
        } else {
          assert acc[j] in acc + others;
        }
      } else {
        assert it in others;
      }
    }
  }

  /** The qualifier lists of matching clauses are united: every qualifier of either list is listed by
      the merged item with its clause, and a merged item lists only qualifiers of items with its clause. */
  lemma {:induction false} MergeItemsQualifiers(acc: seq<Item>, others: seq<Item>)
    ensures QualifiersCovered(acc + others, MergeItems(acc, others))
    ensures QualifiersFrom(MergeItems(acc, others), acc + others)
    decreases |others|
  {
    var r := MergeItems(acc, others);
    if |others| == 0 {
      assert acc + others == acc;
      forall it, x | it in acc && x in it.withOrTo
        ensures exists i :: 0 <= i < |r| && KeyOf(r[i]) == KeyOf(it) && x in r[i].withOrTo
      {
        var i :| 0 <= i < |acc| && acc[i] == it;
        assert x in r[i].withOrTo;
      }
      forall i, x | 0 <= i < |r| && x in r[i].withOrTo
        ensures exists it :: it in acc && KeyOf(it) == KeyOf(r[i]) && x in it.withOrTo
      {
        assert r[i] in acc;
      }
    } else {
      var there := others[0];
      match FirstIndex(acc, (it: Item) => KeyOf(it) == KeyOf(there))
      case Some(i) =>
        MergeFoundStep(acc, others, i);
        MergeItemsQualifiers(acc[i := MergeItem(acc[i], there)], others[1..]);
        CoveredStep(acc, others, i, r);
        FromStep(acc, others, i, r);
      case None =>
        MergeItemsQualifiers(acc + [there], others[1..]);
        assert acc + [there] + others[1..] == acc + others;
    }
  }

  /** A descriptor object: `id` stands for its identity, which the source compares by reference. */
  datatype Instance = Instance(id: nat, value: Descriptor)

  /** `self.mergeCreate(other)`: refuses an object merged with itself; otherwise a new descriptor with
      self's items first and other's folded in, self's ordering, and self's name and description unless
      self has none. */
  function MergeCreate(self: Instance, other: Instance): (r: Result<Descriptor, Error>)
    ensures r.Failure? <==> self.id == other.id
    ensures r.Failure? ==> Message(r.error) == "can't merge with self"
    ensures r.Success? ==> r.value.ordering == self.value.ordering
    ensures r.Success? ==> r.value.name == (if self.value.name == DefaultName then other.value.name
                                           else self.value.name)
    ensures r.Success? ==> r.value.description == (if self.value.description.None?
                                                  then other.value.description
                                                  else self.value.description)
    ensures r.Success? ==> Keys(r.value.items) == Keys(self.value.items) + Keys(other.value.items)
    ensures r.Success? ==> QualifiersCovered(self.value.items + other.value.items, r.value.items)
    ensures r.Success? ==> QualifiersFrom(r.value.items, self.value.items + other.value.items)
  {
    if self.id == other.id then Failure(MergeWithSelf)
    else
      var a := self.value;
      var b := other.value;
      MergeItemsKeys(a.items, b.items);
      MergeItemsQualifiers(a.items, b.items);
      Success(Descriptor(
        if a.name == DefaultName then b.name else a.name,
        if a.description.None? then b.description else a.description,
        a.ordering,
        MergeItems(a.items, b.items)))
  }

  /** Merging with a distinct but equal copy gives the same descriptor back, so `contents()` is
      unchanged, provided no clause is listed twice. */
  lemma MergeWithCopy(self: Instance, other: Instance)
    requires self.id != other.id && self.value == other.value
    requires UniqueClauses(self.value.items)
    ensures MergeCreate(self, other) == Success(self.value)
    ensures Contents(MergeCreate(self, other).value, true) == Contents(self.value, true)
  {
    var items := self.value.items;
    forall k | 0 <= k < |items|
      ensures Absorbs(items, items[k])
    {
      var i := k;
      assert forall j :: 0 <= j < i ==> KeyOf(items[j]) != KeyOf(items[k]);
      assert forall x :: x in items[k].withOrTo ==> x in items[i].withOrTo;
    }
    MergeItemsAbsorbed(items, items);
  }
}
