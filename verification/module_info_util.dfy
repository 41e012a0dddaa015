/** The item-construction helpers of `ModuleInfoUtil` and its add-if-absent operation. */
module ModuleInfoUtil {
  import opened Wrappers
  import opened ModuleInfoItem
  import opened ModuleInfoDescriptor

  /** `requiresModuleName(name, isTransitive, isStatic, comments)`. */
  function RequiresModuleName(name: string, isTransitive: bool, isStatic: bool, comments: seq<string>): (it: Item)
    ensures it.kind == Requires && it.target == name && |it.withOrTo| == 0
    ensures ClauseWords(it) == ["requires"] + (if isTransitive then ["transitive"] else [])
                               + (if isStatic then ["static"] else []) + [name]
    ensures (&& IsName(name) && name != "transitive" && name != "static"
             && forall k :: 0 <= k < |comments| ==> IsCommentLine(comments[k]))
            ==> WellFormed(it)
  {
    Item(Requires, name, isTransitive, isStatic, [], comments)
  }

  /** `usesExternalContract(type)`: a `uses` clause naming the type. */
  function UsesExternalContract(typeName: string): (it: Item)
    ensures ClauseWords(it) == ["uses", typeName]
    ensures IsName(typeName) ==> WellFormed(it)
  {
    Item(Uses, typeName, false, false, [], [])
  }

  /** `providesContract(contract, implementation)`. */
  function ProvidesContract(contract: string, implementation: string): (it: Item)
    ensures ClauseWords(it) == ["provides", contract, "with", implementation]
    ensures IsName(contract) && IsName(implementation) ==> WellFormed(it)
  {
    Item(Provides, contract, false, false, [implementation], [])
  }

  /** `exportsPackage(pkg)`: an unqualified export. */
  function ExportsPackage(pkg: string): (it: Item)
    ensures ClauseWords(it) == ["exports", pkg] && IsUnqualifiedExport(it)
    ensures IsName(pkg) ==> WellFormed(it)
  {
    Item(Exports, pkg, false, false, [], [])
  }

  /** `exportsPackage(pkg, toModule)`: an export qualified by one module. */
  function ExportsPackageTo(pkg: string, toModule: string): (it: Item)
    ensures ClauseWords(it) == ["exports", pkg, "to", toModule] && !IsUnqualifiedExport(it)
    ensures IsName(pkg) && IsName(toModule) ==> WellFormed(it)
  {
    Item(Exports, pkg, false, false, [toModule], [])
  }

  /** Number of items whose target is `target`. */
  function CountTarget(items: seq<Item>, target: string): (n: nat)
    ensures n == 0 <==> forall i :: 0 <= i < |items| ==> items[i].target != target
    ensures n <= |items|
  {
    if |items| == 0 then 0
    else (if items[0].target == target then 1 else 0) + CountTarget(items[1..], target)
  }

  lemma {:induction false} CountTargetSnoc(items: seq<Item>, it: Item, target: string)
    ensures CountTarget(items + [it], target)
            == CountTarget(items, target) + (if it.target == target then 1 else 0)
    decreases |items|
  {
    if |items| > 0 {
      assert (items + [it])[1..] == items[1..] + [it];
      CountTargetSnoc(items[1..], it, target);
    } else {
      assert items + [it] == [it];
    }
  }

  /** `addIfAbsent(builder, target, supplier)`: appends the supplied item unless an item with that
      target is already present (the supplier is then never asked). */
  function AddIfAbsent(d: Descriptor, target: string, item: Item): (r: Descriptor)
    ensures (exists i :: 0 <= i < |d.items| && d.items[i].target == target) ==> r == d
    ensures (forall i :: 0 <= i < |d.items| ==> d.items[i].target != target) ==> r == AddItem(d, item)
  {
    if First(d, target).Some? then d else AddItem(d, item)
  }

  /** With a supplier whose item has the given target, at most one item with that target ends up in
      the descriptor, and it is the earliest one: a later call cannot replace it. */
  lemma AddIfAbsentKeepsFirst(d: Descriptor, target: string, item: Item)
    requires item.target == target
    requires CountTarget(d.items, target) <= 1
    ensures CountTarget(AddIfAbsent(d, target, item).items, target) == 1
    ensures First(AddIfAbsent(d, target, item), target)
            == if First(d, target).Some? then First(d, target) else Some(item)
  {
    var r := AddIfAbsent(d, target, item);
    if First(d, target).None? {
      CountTargetSnoc(d.items, item, target);
      assert r.items[|d.items|].target == target;
      var f := First(r, target).value;
      var i :| 0 <= i < |r.items| && r.items[i] == f && f.target == target
               && forall j :: 0 <= j < i ==> r.items[j].target != target;
      assert i == |d.items|;
    }
  }

  /** Two calls for the same target keep only the first supplied item, with its precomments. */
  lemma AddIfAbsentTwice(d: Descriptor, target: string, first: Item, second: Item)
    requires first.target == target
    requires forall i :: 0 <= i < |d.items| ==> d.items[i].target != target
    ensures AddIfAbsent(AddIfAbsent(d, target, first), target, second) == AddItem(d, first)
  {
    var once := AddIfAbsent(d, target, first);
    assert once.items[|d.items|].target == target;
  }
}
