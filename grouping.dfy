/** Documents as they come from the corpus, and the grouping of a document's
    steps by the how-to method ("section") they belong to. The source keeps
    the groups in a `defaultdict(list)`; its keys iterate in first-insertion
    order, so the groups are modelled as a sequence of (method, steps) pairs. */
module Grouping {
  import opened Wrappers

  datatype Step = Step(section: string, summary: string, text: string)

  datatype Document = Document(title: string, steps: seq<Step>)

  datatype Group = Group(name: string, steps: seq<Step>)

  /** Dictionary lookup: the position of the group keyed by `section`, if any. */
  function FindGroup(groups: seq<Group>, section: string): (r: Option<nat>)
    ensures r.Some? ==> r.value < |groups| && groups[r.value].name == section
    ensures r.None? ==> forall j :: 0 <= j < |groups| ==> groups[j].name != section
  {
    if groups == [] then None
    else if groups[0].name == section then Some(0)
    else match FindGroup(groups[1..], section)
      case Some(j) => Some(j + 1)
      case None => None
  }

  /** `method2steps[step.section].append(step)` on a `defaultdict(list)`. */
  function AddStep(groups: seq<Group>, step: Step): seq<Group> {
    match FindGroup(groups, step.section)
    case Some(j) => groups[j := Group(groups[j].name, groups[j].steps + [step])]
    case None => groups + [Group(step.section, [step])]
  }

  /** The dictionary after all of `steps` have been appended, in order. */
  function GroupBySection(steps: seq<Step>): seq<Group> {
    if steps == [] then []
    else AddStep(GroupBySection(steps[..|steps| - 1]), steps[|steps| - 1])
  }

  /** The steps of `steps` whose section is `m`, in their original order. */
  function OfSection(steps: seq<Step>, m: string): (r: seq<Step>)
    ensures |r| <= |steps|
  {
    if steps == [] then []
    else
      var last := steps[|steps| - 1];
      OfSection(steps[..|steps| - 1], m) + (if last.section == m then [last] else [])
  }

  /** The index of the first step whose section is `m`, or `|steps|` if there is none. */
  function FirstIndex(steps: seq<Step>, m: string): (r: nat)
    ensures r <= |steps|
    ensures r < |steps| ==> steps[r].section == m
    ensures forall i :: 0 <= i < r && i < |steps| ==> steps[i].section != m
  {
    if steps == [] then 0
    else
      var p := FirstIndex(steps[..|steps| - 1], m);
      if p < |steps| - 1 then p
      else if steps[|steps| - 1].section == m then |steps| - 1
      else |steps|
  }

  /** No two groups share a key. */
  ghost predicate DistinctKeys(groups: seq<Group>) {
    forall a, b :: 0 <= a < b < |groups| ==> groups[a].name != groups[b].name
  }

  /** Each group holds exactly the steps of its section, in their original order, and
      its section occurs among the steps. */
  ghost predicate GroupContents(groups: seq<Group>, steps: seq<Step>) {
    forall j :: 0 <= j < |groups| ==>
      groups[j].steps == OfSection(steps, groups[j].name) && |groups[j].steps| > 0 &&
      FirstIndex(steps, groups[j].name) < |steps|
  }

  /** Groups are ordered by the first appearance of their section. */
  ghost predicate FirstAppearanceOrder(groups: seq<Group>, steps: seq<Step>) {
    forall a, b :: 0 <= a < b < |groups| ==>
      FirstIndex(steps, groups[a].name) < FirstIndex(steps, groups[b].name)
  }

  /** Every step's section is a key. */
  ghost predicate CoversSteps(groups: seq<Group>, steps: seq<Step>) {
    forall i :: 0 <= i < |steps| ==> FindGroup(groups, steps[i].section).Some?
  }

  /** What the grouping promises, stated without reference to how it is built. */
  ghost predicate GroupsOf(groups: seq<Group>, steps: seq<Step>) {
    DistinctKeys(groups) && GroupContents(groups, steps) &&
    FirstAppearanceOrder(groups, steps) && CoversSteps(groups, steps)
  }

  lemma OfSectionSnoc(steps: seq<Step>, s: Step, m: string)
    ensures OfSection(steps + [s], m) == OfSection(steps, m) + (if s.section == m then [s] else [])
  {
    assert (steps + [s])[..|steps|] == steps;
  }

  lemma FirstIndexSnoc(steps: seq<Step>, s: Step, m: string)
    ensures FirstIndex(steps + [s], m) ==
      if FirstIndex(steps, m) < |steps| then FirstIndex(steps, m)
      else if s.section == m then |steps| else |steps| + 1
  {
    assert (steps + [s])[..|steps|] == steps;
  }

  /** A non-empty selection of section `m` means `m` occurs in the steps. */
  lemma {:induction false} OfSectionMember(steps: seq<Step>, m: string)
    requires OfSection(steps, m) != []
    ensures FirstIndex(steps, m) < |steps|
  {
    var prefix := steps[..|steps| - 1];
    if OfSection(prefix, m) != [] {
      OfSectionMember(prefix, m);
    }
  }

  /** A step whose section is already a key leaves every existing key's first
      appearance where it was and adds nothing to the other keys' lists. */
  lemma KeyUnmoved(groups: seq<Group>, steps: seq<Step>, s: Step, k: nat)
    requires GroupContents(groups, steps)
    requires k < |groups|
    ensures FirstIndex(steps + [s], groups[k].name) == FirstIndex(steps, groups[k].name)
    ensures OfSection(steps + [s], groups[k].name) ==
      groups[k].steps + (if s.section == groups[k].name then [s] else [])
  {
    OfSectionSnoc(steps, s, groups[k].name);
    FirstIndexSnoc(steps, s, groups[k].name);
  }

  /** A section that is not a key has not occurred yet. */
  lemma KeyAbsent(groups: seq<Group>, steps: seq<Step>, m: string)
    requires CoversSteps(groups, steps)
    requires FindGroup(groups, m).None?
    ensures FirstIndex(steps, m) == |steps|
    ensures OfSection(steps, m) == []
  {
    if OfSection(steps, m) != [] {
      OfSectionMember(steps, m);
    }
  }

  /** Under an existing key, the keys stay, every group holds its section's steps
      seen so far, and no key's first appearance moves. */
  lemma ExistingKeyContents(groups: seq<Group>, steps: seq<Step>, s: Step, j: nat)
    requires GroupsOf(groups, steps)
    requires FindGroup(groups, s.section) == Some(j)
    ensures var groups' := groups[j := Group(groups[j].name, groups[j].steps + [s])];
      GroupContents(groups', steps + [s]) &&
      forall k :: 0 <= k < |groups| ==>
        FirstIndex(steps + [s], groups'[k].name) == FirstIndex(steps, groups[k].name)
  {
    var steps' := steps + [s];
    var groups' := groups[j := Group(groups[j].name, groups[j].steps + [s])];
    forall k | 0 <= k < |groups'|
      ensures groups'[k].steps == OfSection(steps', groups'[k].name) && |groups'[k].steps| > 0
      ensures FirstIndex(steps', groups'[k].name) == FirstIndex(steps, groups[k].name) < |steps|
    {
      KeyUnmoved(groups, steps, s, k);
    }
  }

  /** Renaming nothing and moving no first appearance keeps keys distinct and ordered. */
  lemma SameKeysKeepOrder(groups: seq<Group>, groups': seq<Group>, steps: seq<Step>, steps': seq<Step>)
    requires |groups'| == |groups|
    requires forall k :: 0 <= k < |groups| ==> groups'[k].name == groups[k].name
    requires forall k :: 0 <= k < |groups| ==>
      FirstIndex(steps', groups'[k].name) == FirstIndex(steps, groups[k].name)
    requires DistinctKeys(groups) && FirstAppearanceOrder(groups, steps)
    ensures DistinctKeys(groups') && FirstAppearanceOrder(groups', steps')
  {
  }

  lemma ExistingKeyCovers(groups: seq<Group>, groups': seq<Group>, steps: seq<Step>, s: Step, j: nat)
    requires CoversSteps(groups, steps)
    requires |groups'| == |groups|
    requires forall k :: 0 <= k < |groups| ==> groups'[k].name == groups[k].name
    requires j < |groups| && groups[j].name == s.section
    ensures CoversSteps(groups', steps + [s])
  {
    var steps' := steps + [s];
    forall i | 0 <= i < |steps'|
      ensures FindGroup(groups', steps'[i].section).Some?
    {
      var g := if i < |steps| then FindGroup(groups, steps[i].section).value else j;
      assert groups'[g].name == steps'[i].section;
    }
  }

  /** Appending to an existing key: keys and their order stay, that key's list grows. */
  lemma AddStepToExisting(groups: seq<Group>, steps: seq<Step>, s: Step, j: nat)
    requires GroupsOf(groups, steps)
    requires FindGroup(groups, s.section) == Some(j)
    ensures GroupsOf(AddStep(groups, s), steps + [s])
  {
    var groups' := groups[j := Group(groups[j].name, groups[j].steps + [s])];
    assert AddStep(groups, s) == groups';
    ExistingKeyContents(groups, steps, s, j);
    SameKeysKeepOrder(groups, groups', steps, steps + [s]);
    ExistingKeyCovers(groups, groups', steps, s, j);
  }

  /** Under a new key, the old groups keep their contents and first appearances,
      and the new key first appears at the new step. */
  lemma NewKeyContents(groups: seq<Group>, steps: seq<Step>, s: Step)
    requires GroupsOf(groups, steps)
    requires FindGroup(groups, s.section).None?
    ensures GroupContents(groups + [Group(s.section, [s])], steps + [s])
    ensures forall k :: 0 <= k < |groups| ==>
      FirstIndex(steps + [s], groups[k].name) == FirstIndex(steps, groups[k].name) < |steps|
    ensures FirstIndex(steps + [s], s.section) == |steps|
  {
    var steps' := steps + [s];
    var groups' := groups + [Group(s.section, [s])];
    KeyAbsent(groups, steps, s.section);
    OfSectionSnoc(steps, s, s.section);
    FirstIndexSnoc(steps, s, s.section);
    forall k | 0 <= k < |groups|
      ensures groups'[k].steps == OfSection(steps', groups'[k].name) && |groups'[k].steps| > 0
      ensures FirstIndex(steps', groups'[k].name) == FirstIndex(steps, groups[k].name) < |steps|
    {
      KeyUnmoved(groups, steps, s, k);
    }
  }

  lemma NewKeyDistinct(groups: seq<Group>, g: Group)
    requires DistinctKeys(groups)
    requires forall j :: 0 <= j < |groups| ==> groups[j].name != g.name
    ensures DistinctKeys(groups + [g])
  {
  }

  lemma NewKeyOrder(groups: seq<Group>, steps: seq<Step>, g: Group)
    requires FirstAppearanceOrder(groups, steps)
    requires forall k :: 0 <= k < |groups| ==> FirstIndex(steps, groups[k].name) < FirstIndex(steps, g.name)
    ensures FirstAppearanceOrder(groups + [g], steps)
  {
    var groups' := groups + [g];
    forall a, b | 0 <= a < b < |groups'|
      ensures FirstIndex(steps, groups'[a].name) < FirstIndex(steps, groups'[b].name)
    {
      assert groups'[a] == groups[a];
    }
  }

  lemma NewKeyCovers(groups: seq<Group>, steps: seq<Step>, s: Step)
    requires CoversSteps(groups, steps)
    ensures CoversSteps(groups + [Group(s.section, [s])], steps + [s])
  {
    var steps' := steps + [s];
    var groups' := groups + [Group(s.section, [s])];
    forall i | 0 <= i < |steps'|
      ensures FindGroup(groups', steps'[i].section).Some?
    {
      var g := if i < |steps| then FindGroup(groups, steps[i].section).value else |groups|;
      assert groups'[g].name == steps'[i].section;
    }
  }

  /** Appending under a new key: the new group goes last, holding just this step. */
  lemma AddStepToNew(groups: seq<Group>, steps: seq<Step>, s: Step)
    requires GroupsOf(groups, steps)
    requires FindGroup(groups, s.section).None?
    ensures GroupsOf(AddStep(groups, s), steps + [s])
  {
    var steps' := steps + [s];
    var g := Group(s.section, [s]);
    assert AddStep(groups, s) == groups + [g];
    NewKeyContents(groups, steps, s);
    NewKeyDistinct(groups, g);
    assert FirstAppearanceOrder(groups, steps');
    NewKeyOrder(groups, steps', g);
    NewKeyCovers(groups, steps, s);
  }

  /** One `append` into the dictionary keeps the grouping faithful to the steps seen so far. */
  lemma AddStepKeepsGroups(groups: seq<Group>, steps: seq<Step>, s: Step)
    requires GroupsOf(groups, steps)
    ensures GroupsOf(AddStep(groups, s), steps + [s])
  {
    match FindGroup(groups, s.section)
    case Some(j) => AddStepToExisting(groups, steps, s, j);
    case None => AddStepToNew(groups, steps, s);
  }

  lemma SnocLast<T>(xs: seq<T>)
    requires |xs| > 0
    ensures xs[..|xs| - 1] + [xs[|xs| - 1]] == xs
  {
  }

  /** The dictionary built by the source's loop meets `GroupsOf`. */
  lemma {:induction false} GroupBySectionIsGrouping(steps: seq<Step>)
    ensures GroupsOf(GroupBySection(steps), steps)
  {
    if steps != [] {
      var prefix := steps[..|steps| - 1];
      GroupBySectionIsGrouping(prefix);
      AddStepKeepsGroups(GroupBySection(prefix), prefix, steps[|steps| - 1]);
      SnocLast(steps);
    }
  }
}
