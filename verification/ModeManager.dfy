/** ParameterSetManager of g_parser/parametersetmanager.h: loading the mode table, adding
    modules, and looking one up. */
module ModeManager {
  import opened Basics
  import opened ModeArena
  import opened ModeSearch
  import opened ModeModules
  import opened ModeTree

  // The node at k with one more module at the end of its list.
  function Put(a: Arena, k: nat, m: Module): Arena
    requires WF(a) && k < Size(a)
  {
    a.(mods := a.mods[k := a.mods[k] + [m]])
  }

  lemma PutWF(a: Arena, k: nat, m: Module)
    requires WF(a) && k < Size(a)
    ensures WF(Put(a, k, m)) && Size(Put(a, k, m)) == Size(a)
  {
  }

  // AddModule: the module goes to the first node that carries the mode id, if one does.
  function PutById(a: Arena, m: Module, modeId: nat): (r: (Arena, bool))
    requires WF(a)
    ensures WF(r.0) && Size(r.0) == Size(a)
  {
    if Size(a) == 0 then (a, false)
    else
      FindIdFromRoot(a, modeId);
      match FindId(a, 0, modeId)
      case Some(k) => PutWF(a, k, m); (Put(a, k, m), true)
      case None => (a, false)
  }

  class ParameterSetManager {
    var rootMode: ModeEntry?
    ghost var nodes: seq<ModeEntry>
    ghost var arena: Arena

    ghost predicate Valid()
      reads this, nodes
    {
      && WF(arena) && Linked(nodes, arena)
      && rootMode == if Size(arena) == 0 || |nodes| == 0 then null else nodes[0]
    }

    constructor ()
      ensures Valid() && arena == EMPTY && nodes == []
    {
      rootMode, nodes, arena := null, [], EMPTY;
    }

    // The mode-table loop of ReadSections, which extends the tree that there is.
    method ReadModeTable(rows: seq<Row>) returns (valid: bool)
      requires Valid()
      modifies this, nodes
      ensures Valid() && Extends(old(nodes), nodes)
      ensures forall k :: |old(nodes)| <= k < |nodes| ==> fresh(nodes[k])
      ensures (arena, valid) == Load(old(arena), rows)
    {
      hide WF, Linked, LoadRow;
      ghost var a := arena;
      LoadNothing(a, []);
      valid := true;
      for i := 0 to |rows|
        invariant Valid() && Extends(old(nodes), nodes)
        invariant forall k :: |old(nodes)| <= k < |nodes| ==> fresh(nodes[k])
        invariant (arena, valid) == Load(a, rows[..i])
      {
        LoadLast(a, rows[..i + 1]);
        assert rows[..i + 1][..i] == rows[..i];
        ghost var before := nodes;
        valid := ReadRow(rows[i], valid);
        assert forall k :: 0 <= k < |before| ==> nodes[k] == before[k];
      }
      assert rows[..|rows|] == rows;
    }

    // One turn of that loop.
    method ReadRow(r: Row, valid: bool) returns (valid': bool)
      requires Valid()
      modifies this, nodes
      ensures Valid() && Extends(old(nodes), nodes)
      ensures forall k :: |old(nodes)| <= k < |nodes| ==> fresh(nodes[k])
      ensures (arena, valid') == LoadRow(old(arena), valid, r)
    {
      hide WF, Linked, LinkedValues, Values, Insert, FindId, LoadRow;
      LinkedIs(nodes, arena);
      LoadRowIs(arena, valid, r);
      valid' := valid;
      if rootMode == null {
        var root := new ModeEntry(r.id, r.tag);
        rootMode, nodes, arena := root, [root], Rooted(r.id, r.tag);
        RootLinked(root, r.id, r.tag);
      } else {
        ghost var k := FindId(arena, 0, r.parentId);
        var parent := rootMode.FindById(nodes, arena, 0, r.parentId);
        if parent != null {
          var child := parent.AddMode(nodes, arena, k.value, r.id, r.tag);
          InsertSize(arena, k.value, r.id, r.tag);
          nodes, arena := nodes + [child], Insert(arena, k.value, r.id, r.tag);
        } else {
          valid' := false;
        }
      }
    }

    // AddModule
    method AddModule(m: Module, modeId: nat) returns (result: bool)
      requires Valid()
      modifies this, nodes
      ensures Valid() && nodes == old(nodes)
      ensures (arena, result) == PutById(old(arena), m, modeId)
    {
      hide WF, Linked, FindId, Put;
      LinkedIs(nodes, arena);
      result := false;
      if rootMode != null {
        FindIdFromRoot(arena, modeId);
        ghost var k := FindId(arena, 0, modeId);
        var mode := rootMode.FindById(nodes, arena, 0, modeId);
        if mode != null {
          PutWF(arena, k.value, m);
          Append(nodes, arena, k.value, mode, m);
          arena := Put(arena, k.value, m);
          result := true;
        }
      }
    }

    // The write of AddModule.
    static method Append(ghost nodes: seq<ModeEntry>, ghost a: Arena, ghost k: nat, mode: ModeEntry, m: Module)
      requires WF(a) && Linked(nodes, a) && k < Size(a) && WF(Put(a, k, m)) && k < |nodes| && nodes[k] == mode
      modifies mode
      ensures Linked(nodes, Put(a, k, m))
    {
      hide WF, Linked, Put, LinkedValues;
      LinkedIs(nodes, a);
      ghost var vs := Values(nodes);
      mode.modules := mode.modules + [m];
      PutLinked(nodes, vs, Values(nodes), a, k, m);
      LinkedFrom(nodes, Put(a, k, m));
    }

    // GetModule
    method GetModule(name: string, branch: seq<Tag>) returns (result: Option<Module>)
      requires Valid()
      ensures result == ModeModules.GetModule(arena, branch, name)
    {
      hide WF, Linked, Search, FindModule, Walk;
      LinkedIs(nodes, arena);
      result := None;
      if rootMode != null {
        result := rootMode.FindModuleNamed(nodes, arena, 0, name);
        result := WalkBranch(nodes, arena, rootMode, name, branch, result);
      }
    }
  }

  // The outer loop of GetModule.
  method WalkBranch(ghost nodes: seq<ModeEntry>, ghost a: Arena, root: ModeEntry, name: string, branch: seq<Tag>,
                    found: Option<Module>) returns (result: Option<Module>)
    requires WF(a) && Linked(nodes, a) && |nodes| == Size(a) > 0 && root == nodes[0]
    ensures result == Walk(a, Some(0), branch, 1, found, name)
  {
    hide WF, Linked, Search, FindModule, Walk;
    var mode: ModeEntry? := root;
    ghost var at: Option<nat> := Some(0);
    result := found;
    var index := 1;
    while mode != null && index < |branch|
      invariant mode == NodeAt(nodes, at) && (at.Some? ==> at.value < Size(a))
      invariant Walk(a, at, branch, index, result, name) == Walk(a, Some(0), branch, 1, found, name)
      decreases |branch| - index
    {
      WalkStep(a, at.value, branch, index, result, name);
      var n := CountSame(branch, index);
      var group := branch[index..index + n];
      SearchRange(a, at.value, group);
      mode := mode.FindByModes(nodes, a, at.value, group);
      at := Search(a, at.value, group);
      if mode != null {
        var module' := mode.FindModuleNamed(nodes, a, at.value, name);
        if module' != None {
          result := module';
        }
      }
      index := index + n;
    }
    WalkOver(a, at, branch, index, result, name);
  }

  lemma LoadRowIs(a: Arena, valid: bool, r: Row)
    requires WF(a)
    ensures Size(a) == 0 ==> LoadRow(a, valid, r) == (Rooted(r.id, r.tag), valid)
    ensures Size(a) > 0 && FindId(a, 0, r.parentId).None? ==> LoadRow(a, valid, r) == (a, false)
    ensures Size(a) > 0 && FindId(a, 0, r.parentId).Some? ==>
              && FindId(a, 0, r.parentId).value < Size(a)
              && LoadRow(a, valid, r) == (Insert(a, FindId(a, 0, r.parentId).value, r.id, r.tag), valid)
  {
    hide WF, FindId;
    if Size(a) > 0 {
      FindIdFromRoot(a, r.parentId);
    }
  }

  // The inner loop of GetModule.
  method CountSame(branch: seq<Tag>, index: nat) returns (n: nat)
    requires index < |branch|
    ensures n == SameMode(branch, index)
  {
    n := 1;
    while index + n < |branch| && branch[index].mode == branch[index + n].mode
      invariant n <= |branch| - index
      invariant forall k :: index <= k < index + n ==> branch[k].mode == branch[index].mode
    {
      n := n + 1;
    }
    SameModeIs(branch, index, n);
  }

  lemma SameModeIs(branch: seq<Tag>, index: nat, n: nat)
    requires index < |branch| && 1 <= n <= |branch| - index
    requires forall k :: index <= k < index + n ==> branch[k].mode == branch[index].mode
    requires index + n < |branch| ==> branch[index + n].mode != branch[index].mode
    ensures n == SameMode(branch, index)
  {
    var m := SameMode(branch, index);
    assert !(n < m) && !(m < n);
  }

  ghost predicate Extends(was: seq<ModeEntry>, now: seq<ModeEntry>) { was <= now }

  lemma SizeIs(a: Arena)
    requires WF(a)
    ensures |a.ids| == |a.mods| == Size(a)
  {
  }

  lemma InsertSize(a: Arena, p: nat, id: nat, tag: Tag)
    requires WF(a) && p < Size(a)
    ensures Size(Insert(a, p, id, tag)) == Size(a) + 1
  {
  }

  lemma RootLinked(root: ModeEntry, id: nat, tag: Tag)
    requires root.Value() == NodeValue(id, tag, [], null, null, null)
    ensures WF(Rooted(id, tag)) && Linked([root], Rooted(id, tag))
  {
    assert Values([root]) == [root.Value()];
  }

  // Adding a module changes the modules of one node and nothing else.
  lemma PutLinked(nodes: seq<ModeEntry>, vs: seq<NodeValue>, ws: seq<NodeValue>, a: Arena, k: nat, m: Module)
    requires WF(a) && LinkedValues(nodes, vs, a) && k < Size(a) && WF(Put(a, k, m))
    requires |ws| == |vs| == Size(a) && forall i :: 0 <= i < |vs| ==>
               ws[i] == if i == k then vs[i].(modules := vs[i].modules + [m]) else vs[i]
    ensures LinkedValues(nodes, ws, Put(a, k, m))
  {
  }

  // ---- What adding a module means for looking one up

  // A module added under another name is not seen by the lookup.
  lemma {:induction false} PutOther(a: Arena, k: nat, m: Module, i: nat, name: string)
    requires WF(a) && k < Size(a) && i < Size(a) && m.name != name && WF(Put(a, k, m))
    ensures FindModule(Put(a, k, m), i, name) == FindModule(a, i, name)
    decreases Size(a) - i, |a.kids[i]| + 1
  {
    FirstNamedAppend(a.mods[k], m, name);
    PutOtherBelow(a, k, m, i, |a.kids[i]|, name);
  }

  lemma {:induction false} PutOtherBelow(a: Arena, k: nat, m: Module, i: nat, j: nat, name: string)
    requires WF(a) && k < Size(a) && i < Size(a) && m.name != name && WF(Put(a, k, m)) && j <= |a.kids[i]|
    ensures FindModuleBelow(Put(a, k, m), i, j, name) == FindModuleBelow(a, i, j, name)
    decreases Size(a) - i, j
  {
    if j > 0 {
      PutOtherBelow(a, k, m, i, j - 1, name);
      PutOther(a, k, m, a.kids[i][j - 1], name);
    }
  }

  lemma FirstNamedAppend(ms: seq<Module>, m: Module, name: string)
    ensures FirstNamed(ms + [m], name) ==
            if FirstNamed(ms, name).Some? then FirstNamed(ms, name) else if m.name == name then Some(m) else None
    decreases |ms|
  {
    if ms == [] {
      assert ms + [m] == [m];
    } else {
      assert (ms + [m])[1..] == ms[1..] + [m];
      FirstNamedAppend(ms[1..], m, name);
    }
  }

  // The node that took the module finds it, unless an older one of that name stands
  // before it.
  lemma PutFound(a: Arena, k: nat, m: Module)
    requires WF(a) && k < Size(a) && WF(Put(a, k, m))
    ensures FindModule(Put(a, k, m), k, m.name) ==
            if FirstNamed(a.mods[k], m.name).Some? then FirstNamed(a.mods[k], m.name) else Some(m)
  {
    hide WF;
    SizeIs(a);
    FirstNamedAppend(a.mods[k], m, m.name);
  }
}
