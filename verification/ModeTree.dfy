/** ModeEntry and ParameterSetManager of g_parser/parametersetmanager.h on linked nodes.
    Every method is proved against the value of the tree in modules ModeArena, ModeSearch
    and ModeModules. */
module ModeTree {
  import opened Basics
  import opened ModeArena
  import opened ModeSearch
  import opened ModeModules

  class ModeEntry {
    const id: nat
    const tag: Tag
    var parent: ModeEntry?
    var firstChild: ModeEntry?
    var next: ModeEntry?
    var modules: seq<Module>

    constructor (id: nat, tag: Tag)
      ensures this.id == id && this.tag == tag
      ensures parent == null && firstChild == null && next == null && modules == []
    {
      this.id, this.tag := id, tag;
      parent, firstChild, next, modules := null, null, null, [];
    }

    function Value(): NodeValue
      reads this
    {
      NodeValue(id, tag, modules, firstChild, next, parent)
    }

    // AddMode.  i is the number of this node.
    method AddMode(ghost nodes: seq<ModeEntry>, ghost a: Arena, ghost i: nat, id: nat, tag: Tag)
      returns (child: ModeEntry)
      requires WF(a) && Linked(nodes, a) && i < Size(a) && nodes[i] == this
      modifies nodes
      ensures fresh(child)
      ensures WF(Insert(a, i, id, tag)) && Linked(nodes + [child], Insert(a, i, id, tag))
    {
      hide WF, Linked, LinkedValues, Insert, Attached;
      InsertWF(a, i, id, tag);
      LinkedIs(nodes, a);
      ghost var vs := Values(nodes);
      child := Attach(nodes, a, i, id, tag);
      InsertLinked(nodes, vs, a, i, id, tag, child, Values(nodes + [child]));
      LinkedFrom(nodes + [child], Insert(a, i, id, tag));
    }

    // The writes of AddMode.
    method Attach(ghost nodes: seq<ModeEntry>, ghost a: Arena, ghost i: nat, id: nat, tag: Tag)
      returns (child: ModeEntry)
      requires WF(a) && Linked(nodes, a) && |nodes| == Size(a) && i < Size(a) && nodes[i] == this
      requires forall i, j :: 0 <= i < j < |nodes| ==> nodes[i] != nodes[j]
      modifies nodes
      ensures fresh(child)
      ensures Attached(nodes, old(Values(nodes)), a, i, id, tag, child, Values(nodes + [child]))
    {
      hide WF, Linked, LastKid, Values;
      NodeIs(nodes, a, i);
      child := new ModeEntry(id, tag);
      child.parent := this;
      if firstChild == null {
        ChildrenEnd(nodes, a, i, 0);
        firstChild := child;
      } else {
        var last := FindLast(nodes, a, i);
        last.next := child;
      }
      ValuesWith(nodes, child);
    }

    // The walk along the children to the last of them.
    method FindLast(ghost nodes: seq<ModeEntry>, ghost a: Arena, ghost i: nat) returns (last: ModeEntry)
      requires WF(a) && Linked(nodes, a) && i < Size(a) && nodes[i] == this && firstChild != null
      ensures a.kids[i] != [] && LastKid(a, i) < |nodes| && last == nodes[LastKid(a, i)]
    {
      hide WF, Linked;
      NodeIs(nodes, a, i);
      ChildrenEnd(nodes, a, i, 0);
      last := firstChild;
      ghost var j := 0;
      KidIs(nodes, a, i, 0);
      while last.next != null
        invariant j < |a.kids[i]| && a.kids[i][j] < |nodes| && last == nodes[a.kids[i][j]]
        invariant last.next == At(nodes, a.kids[i], j + 1)
        decreases |a.kids[i]| - j
      {
        last := last.next;
        j := j + 1;
        KidIs(nodes, a, i, j);
      }
      ChildrenEnd(nodes, a, i, j + 1);
    }

    // FindMode(id)
    method FindById(ghost nodes: seq<ModeEntry>, ghost a: Arena, ghost i: nat, id: nat)
      returns (result: ModeEntry?)
      requires WF(a) && Linked(nodes, a) && i < Size(a) && nodes[i] == this
      ensures result == NodeAt(nodes, FindId(a, i, id))
      decreases Size(a) - i
    {
      hide WF, Linked, Preorder, Below, FirstMatch;
      NodeIs(nodes, a, i);
      ghost var p := HasId(a, id);
      PreorderMatch(a, i, p);
      result := null;
      if this.id == id {
        result := this;
      } else {
        var child := firstChild;
        ghost var j := 0;
        NothingBelow(a, i, p);
        while result == null && child != null
          invariant j <= |a.kids[i]| && child == At(nodes, a.kids[i], j)
          invariant result == NodeAt(nodes, FirstMatch(Below(a, i, j), p))
          decreases |a.kids[i]| - j
        {
          ChildIs(nodes, a, i, j, p);
          result := child.FindById(nodes, a, a.kids[i][j], id);
          child := child.next;
          j := j + 1;
        }
        BelowPrefix(a, i, j, p);
        ChildrenEnd(nodes, a, i, j);
      }
    }

    // FindMode(mode)
    method FindByMode(ghost nodes: seq<ModeEntry>, ghost a: Arena, ghost i: nat, mode: Tag)
      returns (result: ModeEntry?)
      requires WF(a) && Linked(nodes, a) && i < Size(a) && nodes[i] == this
      ensures result == NodeAt(nodes, Find(a, i, mode))
      decreases Size(a) - i
    {
      hide WF, Linked, Preorder, Below, FirstMatch;
      NodeIs(nodes, a, i);
      ghost var p := HasTag(a, mode);
      PreorderMatch(a, i, p);
      result := null;
      if mode == tag {
        result := this;
      } else {
        var child := firstChild;
        ghost var j := 0;
        NothingBelow(a, i, p);
        while result == null && child != null
          invariant j <= |a.kids[i]| && child == At(nodes, a.kids[i], j)
          invariant result == NodeAt(nodes, FirstMatch(Below(a, i, j), p))
          decreases |a.kids[i]| - j
        {
          ChildIs(nodes, a, i, j, p);
          result := child.FindByMode(nodes, a, a.kids[i][j], mode);
          child := child.next;
          j := j + 1;
        }
        BelowPrefix(a, i, j, p);
        ChildrenEnd(nodes, a, i, j);
      }
    }

    // FindMode(modes, count)
    method FindByModes(ghost nodes: seq<ModeEntry>, ghost a: Arena, ghost i: nat, modes: seq<Tag>)
      returns (result: ModeEntry?)
      requires WF(a) && Linked(nodes, a) && i < Size(a) && nodes[i] == this
      ensures result == NodeAt(nodes, Search(a, i, modes))
      decreases |modes|
    {
      hide WF, Find, Linked, SearchFrom, Without;
      LinkedIs(nodes, a);
      SearchDone(a, i, modes);
      result := null;
      var index := 0;
      while result == null && index < |modes|
        invariant index <= |modes|
        invariant if result == null then SearchFrom(a, i, modes, 0) == SearchFrom(a, i, modes, index)
                  else result == NodeAt(nodes, SearchFrom(a, i, modes, 0))
        decreases |modes| - index
      {
        SearchStep(a, i, modes, index);
        ghost var found := Find(a, i, modes[index]);
        result := FindByMode(nodes, a, i, modes[index]);
        if result != null && |modes| > 1 {
          var childModes := CopyWithout(modes, index);
          result := result.FindByModes(nodes, a, found.value, childModes);
        }
        index := index + 1;
      }
    }

    // FindModule
    method FindModuleNamed(ghost nodes: seq<ModeEntry>, ghost a: Arena, ghost i: nat, name: string)
      returns (result: Option<Module>)
      requires WF(a) && Linked(nodes, a) && i < Size(a) && nodes[i] == this
      ensures result == FindModule(a, i, name)
      decreases Size(a) - i
    {
      hide WF, Linked, FindModuleBelow, FirstNamed;
      NodeIs(nodes, a, i);
      result := FindOwn(name);
      var child := firstChild;
      ghost var j := 0;
      ghost var own := result;
      NoModuleBelow(a, i, name);
      while result == None && child != null
        invariant j <= |a.kids[i]| && child == At(nodes, a.kids[i], j)
        invariant if own.Some? then result == own else result == FindModuleBelow(a, i, j, name)
        decreases |a.kids[i]| - j
      {
        ModuleChildIs(nodes, a, i, j, name);
        if child.tag == tag {
          result := child.FindModuleNamed(nodes, a, a.kids[i][j], name);
        }
        child := child.next;
        j := j + 1;
      }
      ModulePrefix(a, i, j, name);
      ChildrenEnd(nodes, a, i, j);
    }

    // The loop of FindModule over the node's own modules.
    method FindOwn(name: string) returns (result: Option<Module>)
      ensures result == FirstNamed(modules, name)
    {
      result := None;
      var m := 0;
      while result == None && m < |modules|
        invariant m <= |modules|
        invariant if result == None then FirstNamed(modules, name) == FirstNamed(modules[m..], name)
                  else result == FirstNamed(modules, name)
        decreases |modules| - m
      {
        if modules[m].name == name {
          result := Some(modules[m]);
        }
        m := m + 1;
      }
    }
  }

  // One turn of the loop of FindMode over the modes.
  lemma SearchStep(a: Arena, i: nat, modes: seq<Tag>, index: nat)
    requires WF(a) && i < Size(a) && index < |modes|
    ensures Find(a, i, modes[index]).Some? ==> Find(a, i, modes[index]).value < Size(a)
    ensures
      var found := Find(a, i, modes[index]);
      var below := if found.Some? && |modes| > 1 then Search(a, found.value, Without(modes, index)) else found;
      && (below.Some? ==> below.value < Size(a))
      && SearchFrom(a, i, modes, index) == if below.Some? then below else SearchFrom(a, i, modes, index + 1)
  {
    hide WF, Find;
    FindIs(a, i, modes[index]);
  }

  lemma SearchDone(a: Arena, i: nat, modes: seq<Tag>)
    requires WF(a) && i < Size(a)
    ensures SearchFrom(a, i, modes, |modes|) == None
  {
  }

  // The loop of FindMode that copies all modes but one.
  method CopyWithout(modes: seq<Tag>, index: nat) returns (childModes: seq<Tag>)
    requires index < |modes|
    ensures childModes == Without(modes, index) && |childModes| == |modes| - 1
  {
    childModes := [];
    for child := 0 to |modes|
      invariant childModes == if child <= index then modes[..child] else modes[..index] + modes[index + 1..child]
    {
      if child != index {
        childModes := childModes + [modes[child]];
      }
    }
  }

  function At(nodes: seq<ModeEntry>, ks: seq<nat>, j: nat): ModeEntry? {
    if j < |ks| && ks[j] < |nodes| then nodes[ks[j]] else null
  }

  function NodeAt(nodes: seq<ModeEntry>, k: Option<nat>): ModeEntry? {
    if k.Some? && k.value < |nodes| then nodes[k.value] else null
  }

  datatype NodeValue = NodeValue(id: nat, tag: Tag, modules: seq<Module>,
                                 first: ModeEntry?, next: ModeEntry?, parent: ModeEntry?)

  function Values(nodes: seq<ModeEntry>): (vs: seq<NodeValue>)
    reads nodes
    ensures |vs| == |nodes| && forall i :: 0 <= i < |nodes| ==> vs[i] == nodes[i].Value()
  {
    if nodes == [] then [] else Values(nodes[..|nodes| - 1]) + [nodes[|nodes| - 1].Value()]
  }

  lemma ValuesWith(nodes: seq<ModeEntry>, child: ModeEntry)
    ensures |Values(nodes + [child])| == |nodes| + 1 && Values(nodes + [child])[|nodes|] == child.Value()
    ensures forall k :: 0 <= k < |nodes| ==> Values(nodes + [child])[k] == nodes[k].Value()
  {
  }

  // The objects are the nodes of the arena, with its ids, modes and modules, linked from
  // each node to its first child and from each child to the next.
  ghost predicate Linked(nodes: seq<ModeEntry>, a: Arena)
    requires WF(a)
    reads nodes
  {
    LinkedValues(nodes, Values(nodes), a)
  }

  ghost predicate LinkedValues(nodes: seq<ModeEntry>, vs: seq<NodeValue>, a: Arena)
    requires WF(a)
  {
    && |nodes| == |vs| == Size(a)
    && (forall i, j :: 0 <= i < j < |nodes| ==> nodes[i] != nodes[j])
    && Labelled(vs, a) && FirstLinks(nodes, vs, a) && NextLinks(nodes, vs, a)
    && (|nodes| > 0 ==> vs[0].next == null && vs[0].parent == null)
  }

  ghost predicate Labelled(vs: seq<NodeValue>, a: Arena)
    requires WF(a) && |vs| == Size(a)
  {
    forall i :: 0 <= i < |vs| ==> vs[i].id == a.ids[i] && vs[i].tag == a.tags[i] && vs[i].modules == a.mods[i]
  }

  ghost predicate FirstLinks(nodes: seq<ModeEntry>, vs: seq<NodeValue>, a: Arena)
    requires WF(a) && |nodes| == |vs| == Size(a)
  {
    forall i :: 0 <= i < |vs| ==> vs[i].first == At(nodes, a.kids[i], 0)
  }

  ghost predicate NextLinks(nodes: seq<ModeEntry>, vs: seq<NodeValue>, a: Arena)
    requires WF(a) && |nodes| == |vs| == Size(a)
  {
    forall i, j :: 0 <= i < |vs| && 0 <= j < |a.kids[i]| ==>
      vs[a.kids[i][j]].next == At(nodes, a.kids[i], j + 1) && vs[a.kids[i][j]].parent == nodes[i]
  }

  function LastKid(a: Arena, i: nat): nat
    requires i < Size(a)
  {
    if a.kids[i] == [] then 0 else a.kids[i][|a.kids[i]| - 1]
  }

  // What AddMode writes: the new node, and one link to it.
  ghost predicate Attached(nodes: seq<ModeEntry>, vs: seq<NodeValue>, a: Arena, i: nat, id: nat, tag: Tag,
                           child: ModeEntry, ws: seq<NodeValue>)
    requires i < Size(a) == |nodes| == |vs|
  {
    var n, bare := |vs|, a.kids[i] == [];
    && |ws| == n + 1 && ws[n] == NodeValue(id, tag, [], null, null, nodes[i])
    && forall k :: 0 <= k < n ==>
         ws[k] == if bare && k == i then vs[k].(first := child)
                  else if !bare && k == LastKid(a, i) then vs[k].(next := child)
                  else vs[k]
  }

  lemma InsertFirst(nodes: seq<ModeEntry>, vs: seq<NodeValue>, a: Arena, i: nat, id: nat, tag: Tag,
                    child: ModeEntry, ws: seq<NodeValue>)
    requires WF(a) && LinkedValues(nodes, vs, a) && i < Size(a) && Attached(nodes, vs, a, i, id, tag, child, ws)
    requires WF(Insert(a, i, id, tag))
    ensures FirstLinks(nodes + [child], ws, Insert(a, i, id, tag))
  {
    hide NextLinks, Labelled;
  }

  lemma InsertNext(nodes: seq<ModeEntry>, vs: seq<NodeValue>, a: Arena, i: nat, id: nat, tag: Tag,
                   child: ModeEntry, ws: seq<NodeValue>)
    requires WF(a) && LinkedValues(nodes, vs, a) && i < Size(a) && Attached(nodes, vs, a, i, id, tag, child, ws)
    requires WF(Insert(a, i, id, tag))
    ensures NextLinks(nodes + [child], ws, Insert(a, i, id, tag))
  {
    hide FirstLinks, Labelled;
    var b, n, all := Insert(a, i, id, tag), Size(a), nodes + [child];
    forall p, j | 0 <= p < n + 1 && 0 <= j < |b.kids[p]|
      ensures ws[b.kids[p][j]].next == At(all, b.kids[p], j + 1) && ws[b.kids[p][j]].parent == all[p]
    {
      if p < n && j < |a.kids[p]| {
        var k := a.kids[p][j];
        assert vs[k].next == At(nodes, a.kids[p], j + 1) && vs[k].parent == nodes[p];
        if a.kids[i] != [] && k == LastKid(a, i) {
          assert p == i;
          LastIsLast(a, i, j);
        } else {
          NotLast(a, p, j, i, nodes, child);
        }
      }
    }
  }

  lemma InsertLabelled(nodes: seq<ModeEntry>, vs: seq<NodeValue>, a: Arena, i: nat, id: nat, tag: Tag,
                       child: ModeEntry, ws: seq<NodeValue>)
    requires WF(a) && LinkedValues(nodes, vs, a) && i < Size(a) && Attached(nodes, vs, a, i, id, tag, child, ws)
    requires WF(Insert(a, i, id, tag))
    ensures Labelled(ws, Insert(a, i, id, tag))
  {
    hide FirstLinks, NextLinks;
  }

  lemma LastIsLast(a: Arena, i: nat, j: nat)
    requires WF(a) && i < Size(a) && j < |a.kids[i]| && a.kids[i][j] == LastKid(a, i)
    ensures j == |a.kids[i]| - 1
  {
  }

  // Any other child keeps its successor.
  lemma NotLast(a: Arena, p: nat, j: nat, i: nat, nodes: seq<ModeEntry>, child: ModeEntry)
    requires WF(a) && p < Size(a) == |nodes| && i < Size(a) && j < |a.kids[p]|
    requires a.kids[i] == [] || a.kids[p][j] != LastKid(a, i)
    ensures At(nodes + [child], if p == i then a.kids[p] + [Size(a)] else a.kids[p], j + 1) == At(nodes, a.kids[p], j + 1)
  {
  }

  lemma InsertLinked(nodes: seq<ModeEntry>, vs: seq<NodeValue>, a: Arena, i: nat, id: nat, tag: Tag,
                     child: ModeEntry, ws: seq<NodeValue>)
    requires WF(a) && LinkedValues(nodes, vs, a) && i < Size(a) && |nodes| == |vs| == Size(a)
    requires child !in nodes && Attached(nodes, vs, a, i, id, tag, child, ws)
    requires WF(Insert(a, i, id, tag))
    ensures LinkedValues(nodes + [child], ws, Insert(a, i, id, tag))
  {
    hide FirstLinks, NextLinks, WF, LastKid, Labelled;
    InsertFirst(nodes, vs, a, i, id, tag, child, ws);
    InsertNext(nodes, vs, a, i, id, tag, child, ws);
    InsertLabelled(nodes, vs, a, i, id, tag, child, ws);
    RootStays(a, i, id, tag);
  }

  lemma RootStays(a: Arena, i: nat, id: nat, tag: Tag)
    requires WF(a) && i < Size(a)
    ensures a.kids[i] != [] ==> LastKid(a, i) != 0
    ensures |Insert(a, i, id, tag).ids| == |Insert(a, i, id, tag).tags| == |Insert(a, i, id, tag).mods| == Size(a) + 1
    ensures |a.ids| == |a.tags| == |a.mods| == Size(a)
  {
  }

  lemma LinkedIs(nodes: seq<ModeEntry>, a: Arena)
    requires WF(a) && Linked(nodes, a)
    ensures |nodes| == Size(a) && LinkedValues(nodes, Values(nodes), a)
    ensures forall i, j :: 0 <= i < j < |nodes| ==> nodes[i] != nodes[j]
  {
  }

  lemma LinkedFrom(nodes: seq<ModeEntry>, a: Arena)
    requires WF(a) && LinkedValues(nodes, Values(nodes), a)
    ensures Linked(nodes, a)
  {
    hide LinkedValues;
  }

  lemma NodeIs(nodes: seq<ModeEntry>, a: Arena, i: nat)
    requires WF(a) && Linked(nodes, a) && i < Size(a)
    ensures |nodes| == Size(a) == |a.ids| == |a.tags| == |a.mods|
    ensures nodes[i].id == a.ids[i] && nodes[i].tag == a.tags[i] && nodes[i].modules == a.mods[i]
    ensures nodes[i].firstChild == At(nodes, a.kids[i], 0)
  {
  }

  lemma KidIs(nodes: seq<ModeEntry>, a: Arena, i: nat, j: nat)
    requires WF(a) && Linked(nodes, a) && i < Size(a) && j < |a.kids[i]|
    ensures |nodes| == Size(a) == |a.tags| && i < a.kids[i][j] < Size(a)
    ensures nodes[a.kids[i][j]].next == At(nodes, a.kids[i], j + 1)
    ensures nodes[a.kids[i][j]].tag == a.tags[a.kids[i][j]]
  {
  }

  // The j-th child, and how it extends the search below i.
  lemma ChildIs(nodes: seq<ModeEntry>, a: Arena, i: nat, j: nat, p: nat -> bool)
    requires WF(a) && Linked(nodes, a) && i < Size(a) && j <= |a.kids[i]| && At(nodes, a.kids[i], j) != null
    ensures j < |a.kids[i]| && |nodes| == Size(a) && i < a.kids[i][j] < Size(a)
    ensures At(nodes, a.kids[i], j) == nodes[a.kids[i][j]]
    ensures nodes[a.kids[i][j]].next == At(nodes, a.kids[i], j + 1)
    ensures FirstMatch(Below(a, i, j + 1), p) ==
            if FirstMatch(Below(a, i, j), p).Some? then FirstMatch(Below(a, i, j), p)
            else FirstMatch(Preorder(a, a.kids[i][j]), p)
    ensures FirstMatch(Below(a, i, j), p).Some? ==> FirstMatch(Below(a, i, j), p).value < Size(a)
  {
    KidIs(nodes, a, i, j);
    hide Linked, FirstMatch;
    FirstMatchConcat(Below(a, i, j), Preorder(a, a.kids[i][j]), p);
    FirstMatchIs(Below(a, i, j), p);
    if FirstMatch(Below(a, i, j), p).Some? {
      BelowRange(a, i, j, FirstMatch(Below(a, i, j), p).value);
    }
  }

  lemma ModuleChildIs(nodes: seq<ModeEntry>, a: Arena, i: nat, j: nat, name: string)
    requires WF(a) && Linked(nodes, a) && i < Size(a) && j <= |a.kids[i]| && At(nodes, a.kids[i], j) != null
    ensures j < |a.kids[i]| && |nodes| == Size(a) == |a.tags| && i < a.kids[i][j] < Size(a)
    ensures At(nodes, a.kids[i], j) == nodes[a.kids[i][j]]
    ensures nodes[a.kids[i][j]].next == At(nodes, a.kids[i], j + 1)
    ensures nodes[a.kids[i][j]].tag == a.tags[a.kids[i][j]]
    ensures FindModuleBelow(a, i, j, name).None? ==>
              FindModuleBelow(a, i, j + 1, name) ==
              if a.tags[a.kids[i][j]] == a.tags[i] then FindModule(a, a.kids[i][j], name) else None
  {
    KidIs(nodes, a, i, j);
    hide Linked;
  }

  // The sibling list ends where the list of children does.
  lemma ChildrenEnd(nodes: seq<ModeEntry>, a: Arena, i: nat, j: nat)
    requires WF(a) && Linked(nodes, a) && i < Size(a) && j <= |a.kids[i]|
    ensures At(nodes, a.kids[i], j) == null <==> j == |a.kids[i]|
  {
  }

  lemma PreorderMatch(a: Arena, i: nat, p: nat -> bool)
    requires WF(a) && i < Size(a)
    ensures FirstMatch(Preorder(a, i), p) == if p(i) then Some(i) else FirstMatch(Below(a, i, |a.kids[i]|), p)
    ensures FirstMatch(Preorder(a, i), p).Some? ==> FirstMatch(Preorder(a, i), p).value < Size(a)
  {
    FirstMatchConcat([i], Below(a, i, |a.kids[i]|), p);
    FirstMatchIs(Preorder(a, i), p);
    if FirstMatch(Preorder(a, i), p).Some? {
      PreorderRange(a, i, FirstMatch(Preorder(a, i), p).value);
    }
  }

  lemma NothingBelow(a: Arena, i: nat, p: nat -> bool)
    requires WF(a) && i < Size(a)
    ensures FirstMatch(Below(a, i, 0), p) == None
  {
  }

  lemma NoModuleBelow(a: Arena, i: nat, name: string)
    requires WF(a) && i < Size(a)
    ensures FindModuleBelow(a, i, 0, name) == None
  {
  }

  // A match among the first j children is the match among all of them.
  lemma BelowPrefix(a: Arena, i: nat, j: nat, p: nat -> bool)
    requires WF(a) && i < Size(a) && j <= |a.kids[i]|
    ensures FirstMatch(Below(a, i, j), p).Some? ==> FirstMatch(Below(a, i, |a.kids[i]|), p) == FirstMatch(Below(a, i, j), p)
    decreases |a.kids[i]| - j
  {
    if j < |a.kids[i]| {
      FirstMatchConcat(Below(a, i, j), Preorder(a, a.kids[i][j]), p);
      BelowPrefix(a, i, j + 1, p);
    }
  }

  lemma ModulePrefix(a: Arena, i: nat, j: nat, name: string)
    requires WF(a) && i < Size(a) && j <= |a.kids[i]|
    ensures FindModuleBelow(a, i, j, name).Some? ==>
              FindModuleBelow(a, i, |a.kids[i]|, name) == FindModuleBelow(a, i, j, name)
    decreases |a.kids[i]| - j
  {
    if j < |a.kids[i]| {
      ModulePrefix(a, i, j + 1, name);
    }
  }
}
