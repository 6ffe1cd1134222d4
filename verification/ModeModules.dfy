/** Looking a parameter module up along a branch of modes, and loading the mode table, of
    g_parser/parametersetmanager.h. */
module ModeModules {
  import opened Basics
  import opened ModeArena
  import opened ModeSearch

  // ---- FindModule

  function FirstNamed(ms: seq<Module>, name: string): Option<Module> {
    if ms == [] then None else if ms[0].name == name then Some(ms[0]) else FirstNamed(ms[1..], name)
  }

  // The node's own modules, then those of the children that carry the same mode and
  // sub-mode.
  function FindModule(a: Arena, i: nat, name: string): Option<Module>
    requires WF(a) && i < Size(a)
    decreases Size(a) - i, |a.kids[i]| + 1
  {
    if FirstNamed(a.mods[i], name).Some? then FirstNamed(a.mods[i], name)
    else FindModuleBelow(a, i, |a.kids[i]|, name)
  }

  function FindModuleBelow(a: Arena, i: nat, j: nat, name: string): Option<Module>
    requires WF(a) && i < Size(a) && j <= |a.kids[i]|
    decreases Size(a) - i, j
  {
    if j == 0 then None
    else
      var before := FindModuleBelow(a, i, j - 1, name);
      var c := a.kids[i][j - 1];
      if before.Some? || a.tags[c] != a.tags[i] then before else FindModule(a, c, name)
  }

  // ---- GetModule

  // How many entries from index on carry the mode type of the one at index.
  function SameMode(branch: seq<Tag>, index: nat): (n: nat)
    requires index < |branch|
    ensures 1 <= n <= |branch| - index
    ensures forall k :: index <= k < index + n ==> branch[k].mode == branch[index].mode
    ensures index + n < |branch| ==> branch[index + n].mode != branch[index].mode
    decreases |branch| - index
  {
    if index + 1 < |branch| && branch[index].mode == branch[index + 1].mode then 1 + SameMode(branch, index + 1)
    else 1
  }

  // The walk from a node, the entries from index on, and the module found so far.
  function Walk(a: Arena, node: Option<nat>, branch: seq<Tag>, index: nat, found: Option<Module>, name: string)
    : Option<Module>
    requires WF(a) && (node.Some? ==> node.value < Size(a))
    decreases |branch| - index
  {
    if node.None? || index >= |branch| then found
    else
      var n := SameMode(branch, index);
      var next := Search(a, node.value, branch[index..index + n]);
      Walk(a, next, branch, index + n, Better(a, next, found, name), name)
  }

  // A module found at a deeper node replaces the one found so far.
  function Better(a: Arena, node: Option<nat>, found: Option<Module>, name: string): Option<Module>
    requires WF(a) && (node.Some? ==> node.value < Size(a))
  {
    if node.Some? && FindModule(a, node.value, name).Some? then FindModule(a, node.value, name) else found
  }

  function GetModule(a: Arena, branch: seq<Tag>, name: string): Option<Module>
    requires WF(a)
  {
    if Size(a) == 0 then None
    else Walk(a, Some(0), branch, 1, FindModule(a, 0, name), name)
  }

  // Where the walk along the whole branch ends.
  function EndOf(a: Arena, node: Option<nat>, branch: seq<Tag>, index: nat): (r: Option<nat>)
    requires WF(a) && (node.Some? ==> node.value < Size(a))
    ensures r.Some? ==> r.value < Size(a)
    decreases |branch| - index
  {
    if node.None? || index >= |branch| then node
    else
      var n := SameMode(branch, index);
      EndOf(a, Search(a, node.value, branch[index..index + n]), branch, index + n)
  }

  // A group of one mode type, other than the type the branch ends with.
  predicate NewGroup(branch: seq<Tag>, g: seq<Tag>) {
    && |branch| >= 1 && |g| >= 1
    && (forall k :: 0 <= k < |g| ==> g[k].mode == g[0].mode)
    && (|branch| > 1 ==> branch[|branch| - 1].mode != g[0].mode)
  }

  lemma SameModeExtended(branch: seq<Tag>, g: seq<Tag>, index: nat)
    requires NewGroup(branch, g) && 1 <= index < |branch|
    ensures SameMode(branch + g, index) == SameMode(branch, index)
    decreases |branch| - index
  {
    if index + 1 < |branch| {
      SameModeExtended(branch, g, index + 1);
    } else {
      assert (branch + g)[index] == branch[|branch| - 1];
      assert (branch + g)[index + 1] == g[0];
    }
  }

  lemma SameModeOfGroup(branch: seq<Tag>, g: seq<Tag>, k: nat)
    requires NewGroup(branch, g) && k < |g|
    ensures SameMode(branch + g, |branch| + k) == |g| - k
    decreases |g| - k
  {
    assert (branch + g)[|branch| + k] == g[k];
    if k + 1 < |g| {
      assert (branch + g)[|branch| + k + 1] == g[k + 1];
      SameModeOfGroup(branch, g, k + 1);
    }
  }

  // The walk over the appended group alone.
  lemma WalkOverGroup(
    a: Arena, i: nat, branch: seq<Tag>, g: seq<Tag>, found: Option<Module>, name: string)
    requires WF(a) && i < Size(a) && NewGroup(branch, g)
    ensures Walk(a, Some(i), branch + g, |branch|, found, name) == Better(a, Search(a, i, g), found, name)
  {
    hide Search, FindModule, WF, Better, Walk;
    var all, next := branch + g, Search(a, i, g);
    SameModeOfGroup(branch, g, 0);
    assert all[|branch|..|branch| + |g|] == g;
    SearchRange(a, i, g);
    WalkOver(a, next, all, |all|, Better(a, next, found, name), name);
    WalkStep(a, i, all, |branch|, found, name);
  }

  lemma WalkStep(a: Arena, i: nat, branch: seq<Tag>, index: nat, found: Option<Module>, name: string)
    requires WF(a) && i < Size(a) && index < |branch|
    ensures
      var n := SameMode(branch, index);
      var next := Search(a, i, branch[index..index + n]);
      Walk(a, Some(i), branch, index, found, name) == Walk(a, next, branch, index + n, Better(a, next, found, name), name)
  {
    hide Search, FindModule, WF, Better;
    SearchRange(a, i, branch[index..index + SameMode(branch, index)]);
  }

  lemma WalkOver(a: Arena, node: Option<nat>, branch: seq<Tag>, index: nat, found: Option<Module>, name: string)
    requires WF(a) && (node.Some? ==> node.value < Size(a)) && (node.None? || index >= |branch|)
    ensures Walk(a, node, branch, index, found, name) == found
    ensures EndOf(a, node, branch, index) == node
  {
  }

  // One step of the walk inside the branch is the same with the group appended.
  lemma WalkInside(
    a: Arena, i: nat, branch: seq<Tag>, g: seq<Tag>, index: nat, found: Option<Module>, name: string)
    requires WF(a) && i < Size(a) && NewGroup(branch, g) && 1 <= index < |branch|
    ensures
      var n := SameMode(branch, index);
      var next := Search(a, i, branch[index..index + n]);
      && (next.Some? ==> next.value < Size(a))
      && Walk(a, Some(i), branch + g, index, found, name)
         == Walk(a, next, branch + g, index + n, Better(a, next, found, name), name)
  {
    hide Search, FindModule, WF;
    SameModeExtended(branch, g, index);
    var n := SameMode(branch, index);
    assert (branch + g)[index..index + n] == branch[index..index + n];
    SearchRange(a, i, branch[index..index + n]);
  }

  // Appending such a group adds one step at the end of the walk.
  lemma {:induction false} WalkExtended(
    a: Arena, node: Option<nat>, branch: seq<Tag>, g: seq<Tag>, index: nat, found: Option<Module>, name: string)
    requires WF(a) && (node.Some? ==> node.value < Size(a)) && NewGroup(branch, g) && 1 <= index <= |branch|
    ensures
      var end := EndOf(a, node, branch, index);
      var before := Walk(a, node, branch, index, found, name);
      Walk(a, node, branch + g, index, found, name) ==
      if end.None? then before else Better(a, Search(a, end.value, g), before, name)
    decreases |branch| - index
  {
    hide Search, FindModule, WF, Better, Walk, EndOf;
    if node.None? || index == |branch| {
      WalkOver(a, node, branch, index, found, name);
      if node.Some? {
        WalkOverGroup(a, node.value, branch, g, found, name);
      } else {
        WalkOver(a, node, branch + g, index, found, name);
      }
    } else {
      WalkInside(a, node.value, branch, g, index, found, name);
      WalkStep(a, node.value, branch, index, found, name);
      EndOfStep(a, node.value, branch, index);
      var n := SameMode(branch, index);
      var next := Search(a, node.value, branch[index..index + n]);
      WalkExtended(a, next, branch, g, index + n, Better(a, next, found, name), name);
    }
  }

  lemma EndOfStep(a: Arena, i: nat, branch: seq<Tag>, index: nat)
    requires WF(a) && i < Size(a) && index < |branch|
    ensures
      var next := Search(a, i, branch[index..index + SameMode(branch, index)]);
      && (next.Some? ==> next.value < Size(a))
      && EndOf(a, Some(i), branch, index) == EndOf(a, next, branch, index + SameMode(branch, index))
  {
    hide Search, WF;
    SearchRange(a, i, branch[index..index + SameMode(branch, index)]);
  }

  lemma SearchRange(a: Arena, i: nat, modes: seq<Tag>)
    requires WF(a) && i < Size(a)
    ensures Search(a, i, modes).Some? ==> Search(a, i, modes).value < Size(a)
  {
  }

  // Appending a group of a new mode type to a branch never loses a module: the result is
  // the deeper node's module if it has one, and what it was otherwise.
  lemma GetModuleExtended(a: Arena, branch: seq<Tag>, g: seq<Tag>, name: string)
    requires WF(a) && Size(a) > 0 && NewGroup(branch, g)
    ensures
      var end := EndOf(a, Some(0), branch, 1);
      var was := GetModule(a, branch, name);
      GetModule(a, branch + g, name) == if end.None? then was else Better(a, Search(a, end.value, g), was, name)
    ensures GetModule(a, branch, name).Some? ==> GetModule(a, branch + g, name).Some?
  {
    hide Search, FindModule;
    WalkExtended(a, Some(0), branch, g, 1, FindModule(a, 0, name), name);
    var end := EndOf(a, Some(0), branch, 1);
    if end.Some? {
      SearchRange(a, end.value, g);
    }
  }

  // ---- The mode table

  datatype Row = Row(id: nat, tag: Tag, parentId: nat)

  // One row: the first makes the root, the others a child of the first node, in
  // depth-first order, that carries the parent id.  The flag is false once a row has been
  // rejected.
  function LoadRow(a: Arena, valid: bool, r: Row): (Arena, bool)
    requires WF(a)
  {
    if Size(a) == 0 then (Rooted(r.id, r.tag), valid)
    else
      FindIdFromRoot(a, r.parentId);
      match FindId(a, 0, r.parentId)
      case Some(p) => (Insert(a, p, r.id, r.tag), valid)
      case None => (a, false)
  }

  lemma LoadRowWF(a: Arena, valid: bool, r: Row)
    requires WF(a)
    ensures WF(LoadRow(a, valid, r).0)
  {
    hide FindId;
    if Size(a) > 0 {
      FindIdFromRoot(a, r.parentId);
      if FindId(a, 0, r.parentId).Some? {
        InsertWF(a, FindId(a, 0, r.parentId).value, r.id, r.tag);
      }
    }
  }

  // A row after the first whose parent id is found becomes the last child of the first
  // node, in depth-first order, that carries the parent id; no other node changes.
  lemma RowHangs(a: Arena, valid: bool, r: Row) returns (at: nat)
    requires WF(a) && Size(a) > 0 && r.parentId in a.ids
    ensures at < |Preorder(a, 0)| && Preorder(a, 0)[at] < Size(a) == |a.ids|
    ensures a.ids[Preorder(a, 0)[at]] == r.parentId
    ensures forall j :: 0 <= j < at && Preorder(a, 0)[j] < |a.ids| ==> a.ids[Preorder(a, 0)[j]] != r.parentId
    ensures
      var b, p, n := LoadRow(a, valid, r).0, Preorder(a, 0)[at], Size(a);
      && Size(b) == n + 1 && b.ids == a.ids + [r.id] && b.tags == a.tags + [r.tag] && b.par == a.par + [p]
      && b.kids[p] == a.kids[p] + [n] && b.kids[n] == []
      && forall i :: 0 <= i < n && i != p ==> b.kids[i] == a.kids[i]
  {
    hide Preorder;
    FindIdFromRoot(a, r.parentId);
    at := FirstMatchFirst(Preorder(a, 0), HasId(a, r.parentId));
  }

  // The rows of a table, added to the tree that there is.
  function Load(a: Arena, rows: seq<Row>): (r: (Arena, bool))
    requires WF(a)
    ensures WF(r.0)
    decreases |rows|
  {
    if rows == [] then (a, true)
    else
      var (b, valid) := Load(a, rows[..|rows| - 1]);
      LoadRowWF(b, valid, rows[|rows| - 1]);
      LoadRow(b, valid, rows[|rows| - 1])
  }

  // The rows accepted so far, and those that a further table as a list of ids and parent ids
  // adds to them: the first of all, and every row whose parent id was carried by an accepted
  // row before it.
  function Accepted(acc: seq<Row>, rows: seq<Row>): seq<Row>
    decreases |rows|
  {
    if rows == [] then acc
    else
      var before, r := Accepted(acc, rows[..|rows| - 1]), rows[|rows| - 1];
      if before == [] || Carried(before, r.parentId) then before + [r] else before
  }

  predicate Carried(rows: seq<Row>, id: nat) { exists k :: 0 <= k < |rows| && rows[k].id == id }

  // The nodes are the accepted rows in order, each with its id, mode and sub-mode, and
  // every node's parent carries its row's parent id.
  ghost predicate Built(a: Arena, acc: seq<Row>)
    requires WF(a)
  {
    && Size(a) == |acc|
    && (forall k :: 0 <= k < |acc| ==> a.ids[k] == acc[k].id && a.tags[k] == acc[k].tag)
    && (forall k :: 1 <= k < |acc| ==> a.ids[a.par[k]] == acc[k].parentId)
  }

  lemma RowBuilds(a: Arena, valid: bool, acc: seq<Row>, r: Row)
    requires WF(a) && Built(a, acc)
    ensures WF(LoadRow(a, valid, r).0)
    ensures
      var taken := acc == [] || Carried(acc, r.parentId);
      && Built(LoadRow(a, valid, r).0, if taken then acc + [r] else acc)
      && LoadRow(a, valid, r).1 == (valid && taken)
  {
    hide FindId, Preorder;
    LoadRowWF(a, valid, r);
    if Size(a) > 0 {
      FindIdFromRoot(a, r.parentId);
      CarriedIds(a, acc, r.parentId);
    }
  }

  // Loading a table into the tree of the rows accepted before builds the tree of all
  // accepted rows, and reports the table valid exactly when none of its rows was rejected.
  lemma {:induction false} LoadBuilds(a: Arena, acc: seq<Row>, rows: seq<Row>)
    requires WF(a) && Built(a, acc)
    ensures Built(Load(a, rows).0, Accepted(acc, rows))
    ensures Load(a, rows).1 <==> Accepted(acc, rows) == acc + rows
    decreases |rows|
  {
    hide LoadRow, Built, Carried;
    if rows == [] {
      LoadNothing(a, acc);
    } else {
      var n := |rows| - 1;
      LoadBuilds(a, acc, rows[..n]);
      AcceptedShorter(acc, rows[..n]);
      LoadLast(a, rows);
      RowBuilds(Load(a, rows[..n]).0, Load(a, rows[..n]).1, Accepted(acc, rows[..n]), rows[n]);
      assert acc + rows == (acc + rows[..n]) + [rows[n]];
    }
  }

  lemma LoadNothing(a: Arena, acc: seq<Row>)
    requires WF(a)
    ensures Load(a, []) == (a, true) && Accepted(acc, []) == acc == acc + []
  {
  }

  // The first table of a manager.
  lemma LoadFromEmpty(rows: seq<Row>)
    ensures WF(EMPTY) && Built(Load(EMPTY, rows).0, Accepted([], rows))
    ensures Load(EMPTY, rows).1 <==> Accepted([], rows) == rows
  {
    hide Load, Accepted;
    LoadBuilds(EMPTY, [], rows);
    assert [] + rows == rows;
  }

  lemma LoadLast(a: Arena, rows: seq<Row>)
    requires WF(a) && rows != []
    ensures WF(Load(a, rows[..|rows| - 1]).0)
    ensures Load(a, rows) == LoadRow(Load(a, rows[..|rows| - 1]).0, Load(a, rows[..|rows| - 1]).1, rows[|rows| - 1])
  {
    hide LoadRow;
  }

  lemma {:induction false} AcceptedShorter(acc: seq<Row>, rows: seq<Row>)
    ensures |Accepted(acc, rows)| <= |acc| + |rows|
    decreases |rows|
  {
    if rows != [] {
      AcceptedShorter(acc, rows[..|rows| - 1]);
    }
  }

  lemma CarriedIds(a: Arena, acc: seq<Row>, id: nat)
    requires |a.ids| == |acc| && forall k :: 0 <= k < |acc| ==> a.ids[k] == acc[k].id
    ensures Carried(acc, id) <==> id in a.ids
  {
    if Carried(acc, id) {
      var k :| 0 <= k < |acc| && acc[k].id == id;
      assert a.ids[k] == id;
    }
  }
}
