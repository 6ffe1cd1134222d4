/** What a module lookup of g_parser/parametersetmanager.h returns, said of the tree and of
    the branch: FindModule by the nodes below one in depth-first order, GetModule by the
    modes visited along the branch. */
module ModeLookup {
  import opened Basics
  import opened ModeArena
  import opened ModeSearch
  import opened ModeModules

  // ---- Depth-first order, by the children

  // A node comes first and its children in the order of their creation.
  lemma {:induction false} KidsInOrder(a: Arena, i: nat, m: nat) returns (at: seq<nat>)
    requires WF(a) && i < Size(a) && m <= |a.kids[i]|
    ensures |at| == m
    ensures forall j :: 0 <= j < m ==> at[j] < |Below(a, i, m)| && Below(a, i, m)[at[j]] == a.kids[i][j]
    ensures forall j, k :: 0 <= j < k < m ==> at[j] < at[k]
    decreases m
  {
    at := [];
    if m > 0 {
      at := KidsInOrder(a, i, m - 1);
      var before, c := Below(a, i, m - 1), a.kids[i][m - 1];
      assert Below(a, i, m) == before + Preorder(a, c) && Preorder(a, c)[0] == c;
      at := at + [|before|];
    }
  }

  lemma {:induction false} ParentInside(a: Arena, c: nat, k: nat)
    requires WF(a) && c < Size(a) && k in Preorder(a, c) && k != c
    ensures c < k < Size(a) && a.par[k] in Preorder(a, c)
    decreases Size(a) - c, |a.kids[c]| + 1
  {
    ParentBelow(a, c, |a.kids[c]|, k);
  }

  lemma {:induction false} ParentBelow(a: Arena, i: nat, j: nat, k: nat)
    requires WF(a) && i < Size(a) && j <= |a.kids[i]| && k in Below(a, i, j)
    ensures i < k < Size(a) && (a.par[k] == i || a.par[k] in Below(a, i, j))
    decreases Size(a) - i, j
  {
    BelowRange(a, i, j, k);
    if k in Below(a, i, j - 1) {
      ParentBelow(a, i, j - 1, k);
    } else if k != a.kids[i][j - 1] {
      ParentInside(a, a.kids[i][j - 1], k);
    }
  }

  // ---- FindModule

  // k is i, or lies below it with only nodes of i's mode and sub-mode on the way.
  predicate Kin(a: Arena, i: nat, k: nat)
    requires WF(a) && i < Size(a)
    decreases k
  {
    k == i || (i < k < Size(a) && a.tags[k] == a.tags[i] && Kin(a, i, a.par[k]))
  }

  lemma {:induction false} KinChild(a: Arena, i: nat, j: nat, k: nat)
    requires WF(a) && i < Size(a) && j < |a.kids[i]| && k in Preorder(a, a.kids[i][j])
    ensures Kin(a, i, k) <==> a.tags[a.kids[i][j]] == a.tags[i] && Kin(a, a.kids[i][j], k)
    decreases k
  {
    var c := a.kids[i][j];
    if k != c {
      ParentInside(a, c, k);
      KinChild(a, i, j, a.par[k]);
    }
  }

  predicate Has(ms: seq<Module>, name: string) { exists n :: 0 <= n < |ms| && ms[n].name == name }

  // m is the first module of that name in the list.
  predicate IsFirst(ms: seq<Module>, name: string, m: Module) {
    exists n :: 0 <= n < |ms| && ms[n] == m && m.name == name && !Has(ms[..n], name)
  }

  lemma {:induction false} FirstNamedExactly(ms: seq<Module>, name: string)
    ensures FirstNamed(ms, name).Some? <==> Has(ms, name)
    ensures FirstNamed(ms, name).Some? ==> IsFirst(ms, name, FirstNamed(ms, name).value)
    decreases |ms|
  {
    if ms != [] {
      if ms[0].name == name {
        assert ms[..0] == [];
      } else {
        FirstNamedExactly(ms[1..], name);
        if Has(ms[1..], name) {
          var m := FirstNamed(ms[1..], name).value;
          var n :| 0 <= n < |ms[1..]| && ms[1..][n] == m && m.name == name && !Has(ms[1..][..n], name);
          FirstLater(ms, name, n);
        }
        assert Has(ms, name) ==> Has(ms[1..], name) by {
          if Has(ms, name) {
            var n :| 0 <= n < |ms| && ms[n].name == name;
            assert ms[1..][n - 1] == ms[n];
          }
        }
      }
    }
  }

  lemma FirstLater(ms: seq<Module>, name: string, n: nat)
    requires n < |ms| - 1 && ms[0].name != name && ms[n + 1].name == name && !Has(ms[1..][..n], name)
    ensures IsFirst(ms, name, ms[n + 1]) && Has(ms, name)
  {
    forall k | 0 <= k < n + 1
      ensures ms[k].name != name
    {
      assert k > 0 ==> ms[1..][..n][k - 1] == ms[k];
    }
  }

  // Of the kin of i in a list of nodes, which one is the first that has the module.
  ghost predicate Holder(a: Arena, i: nat, s: seq<nat>, t: nat, name: string, m: Module)
    requires WF(a) && i < Size(a)
  {
    && t < |s| && s[t] < Size(a) && Kin(a, i, s[t]) && IsFirst(a.mods[s[t]], name, m)
    && forall u :: 0 <= u < t && s[u] < Size(a) && Kin(a, i, s[u]) ==> !Has(a.mods[s[u]], name)
  }

  ghost predicate NoHolder(a: Arena, i: nat, s: seq<nat>, name: string)
    requires WF(a) && i < Size(a)
  {
    forall u :: 0 <= u < |s| && s[u] < Size(a) && Kin(a, i, s[u]) ==> !Has(a.mods[s[u]], name)
  }

  lemma HolderLeft(a: Arena, i: nat, s: seq<nat>, r: seq<nat>, t: nat, name: string, m: Module)
    requires WF(a) && i < Size(a) && Holder(a, i, s, t, name, m)
    ensures Holder(a, i, s + r, t, name, m)
  {
    hide Kin, Has, IsFirst, WF;
    assert forall u :: 0 <= u < |s| ==> (s + r)[u] == s[u];
  }

  lemma HolderRight(a: Arena, i: nat, s: seq<nat>, r: seq<nat>, t: nat, name: string, m: Module)
    requires WF(a) && i < Size(a) && NoHolder(a, i, s, name) && Holder(a, i, r, t, name, m)
    ensures Holder(a, i, s + r, |s| + t, name, m)
  {
    hide Kin, Has, IsFirst;
    forall u | 0 <= u < |s| + t && (s + r)[u] < Size(a) && Kin(a, i, (s + r)[u])
      ensures !Has(a.mods[(s + r)[u]], name)
    {
      if u < |s| {
        assert (s + r)[u] == s[u];
      } else {
        assert (s + r)[u] == r[u - |s|];
      }
    }
  }

  lemma NoHolderBoth(a: Arena, i: nat, s: seq<nat>, r: seq<nat>, name: string)
    requires WF(a) && i < Size(a) && NoHolder(a, i, s, name) && NoHolder(a, i, r, name)
    ensures NoHolder(a, i, s + r, name)
  {
    hide Kin, Has;
    forall u | 0 <= u < |s + r| && (s + r)[u] < Size(a) && Kin(a, i, (s + r)[u])
      ensures !Has(a.mods[(s + r)[u]], name)
    {
      if u < |s| {
        assert (s + r)[u] == s[u];
      } else {
        assert (s + r)[u] == r[u - |s|];
      }
    }
  }

  // The same list of nodes seen from a child and from its parent.
  lemma FromChild(a: Arena, i: nat, j: nat, name: string)
    requires WF(a) && i < Size(a) && j < |a.kids[i]|
    ensures
      var c := a.kids[i][j];
      var s := Preorder(a, c);
      if a.tags[c] != a.tags[i] then NoHolder(a, i, s, name)
      else
        && (NoHolder(a, c, s, name) ==> NoHolder(a, i, s, name))
        && forall t, m :: Holder(a, c, s, t, name, m) ==> Holder(a, i, s, t, name, m)
  {
    hide Kin, Has, IsFirst, Preorder;
    var c := a.kids[i][j];
    var s := Preorder(a, c);
    forall u | 0 <= u < |s|
      ensures Kin(a, i, s[u]) <==> a.tags[c] == a.tags[i] && Kin(a, c, s[u])
    {
      KinChild(a, i, j, s[u]);
    }
  }

  // The module found is that of the first node, depth first, among those of the same mode
  // and sub-mode, that has one of the name, and its first one; there is none exactly when
  // none of them has.
  lemma {:induction false} FindModuleExactly(a: Arena, i: nat, name: string) returns (t: nat)
    requires WF(a) && i < Size(a)
    ensures
      match FindModule(a, i, name)
      case None => NoHolder(a, i, Preorder(a, i), name)
      case Some(m) => Holder(a, i, Preorder(a, i), t, name, m)
    decreases Size(a) - i, |a.kids[i]| + 1
  {
    FirstNamedExactly(a.mods[i], name);
    t := 0;
    var below := Below(a, i, |a.kids[i]|);
    assert Preorder(a, i) == [i] + below;
    if !Has(a.mods[i], name) {
      t := FindBelowExactly(a, i, |a.kids[i]|, name);
      OwnNone(a, i, name);
      match FindModuleBelow(a, i, |a.kids[i]|, name) {
        case None => NoHolderBoth(a, i, [i], below, name);
        case Some(m) => HolderRight(a, i, [i], below, t, name, m);
      }
      t := t + 1;
    }
  }

  lemma OwnNone(a: Arena, i: nat, name: string)
    requires WF(a) && i < Size(a) && !Has(a.mods[i], name)
    ensures NoHolder(a, i, [i], name)
  {
  }

  lemma {:induction false} FindBelowExactly(a: Arena, i: nat, j: nat, name: string) returns (t: nat)
    requires WF(a) && i < Size(a) && j <= |a.kids[i]|
    ensures
      match FindModuleBelow(a, i, j, name)
      case None => NoHolder(a, i, Below(a, i, j), name)
      case Some(m) => Holder(a, i, Below(a, i, j), t, name, m)
    decreases Size(a) - i, j
  {
    hide Kin, Has, IsFirst, Preorder, FindModule, Holder, NoHolder;
    t := 0;
    if j == 0 {
      NothingBelow(a, i, name);
    } else {
      t := FindBelowExactly(a, i, j - 1, name);
      var before, c := Below(a, i, j - 1), a.kids[i][j - 1];
      var r := Preorder(a, c);
      match FindModuleBelow(a, i, j - 1, name) {
        case Some(m) => HolderLeft(a, i, before, r, t, name, m);
        case None =>
          FromChild(a, i, j - 1, name);
          if a.tags[c] != a.tags[i] {
            NoHolderBoth(a, i, before, r, name);
          } else {
            t := FindModuleExactly(a, c, name);
            match FindModule(a, c, name) {
              case None => NoHolderBoth(a, i, before, r, name);
              case Some(m) => HolderRight(a, i, before, r, t, name, m);
            }
            t := |before| + t;
          }
      }
    }
  }

  lemma NothingBelow(a: Arena, i: nat, name: string)
    requires WF(a) && i < Size(a)
    ensures Below(a, i, 0) == [] && NoHolder(a, i, [], name)
  {
  }

  // ---- GetModule

  // branch[lo..hi] is a longest run of one mode type, from lo on.
  predicate IsGroup(branch: seq<Tag>, lo: nat, hi: nat) {
    && lo < hi <= |branch|
    && (forall k :: lo <= k < hi ==> branch[k].mode == branch[lo].mode)
    && (hi < |branch| ==> branch[hi].mode != branch[lo].mode)
  }

  lemma GroupIs(branch: seq<Tag>, lo: nat)
    requires lo < |branch|
    ensures forall hi: nat :: IsGroup(branch, lo, hi) <==> hi == lo + SameMode(branch, lo)
  {
    var n := lo + SameMode(branch, lo);
    forall hi: nat | lo < hi <= |branch|
      ensures IsGroup(branch, lo, hi) ==> hi == n
    {
      if hi < n {
        assert branch[hi].mode == branch[lo].mode;
      } else if n < hi {
        assert branch[n].mode != branch[lo].mode;
      }
    }
  }

  // The k-th group of the branch leads from the k-th mode visited to the next.
  ghost predicate Leads(a: Arena, branch: seq<Tag>, vs: seq<nat>, cuts: seq<nat>, k: nat)
    requires WF(a) && |vs| == |cuts| && k + 1 < |vs| && vs[k] < Size(a)
  {
    IsGroup(branch, cuts[k], cuts[k + 1]) && Search(a, vs[k], branch[cuts[k]..cuts[k + 1]]) == Some(vs[k + 1])
  }

  // The modes visited along a branch, root first: each group of the branch, from entry 1
  // on, leads from one to the next, and either the branch is used up or the next group leads
  // nowhere.  cuts says where each group begins.
  ghost predicate IsWalk(a: Arena, branch: seq<Tag>, vs: seq<nat>, cuts: seq<nat>)
    requires WF(a)
  {
    && |vs| == |cuts| > 0 && vs[0] == 0 && cuts[0] == 1
    && (forall k :: 0 <= k < |vs| ==> vs[k] < Size(a))
    && (forall k :: 0 <= k < |vs| - 1 ==> Leads(a, branch, vs, cuts, k))
    && var last := |vs| - 1;
       || cuts[last] >= |branch|
       || forall hi: nat :: IsGroup(branch, cuts[last], hi) ==> Search(a, vs[last], branch[cuts[last]..hi]) == None
  }

  // Where the walk stands after k modes.
  lemma {:induction false} WalkFrom(a: Arena, branch: seq<Tag>, vs: seq<nat>, cuts: seq<nat>, k: nat,
                                    found: Option<Module>, name: string, j: nat)
    requires WF(a) && IsWalk(a, branch, vs, cuts) && k < |vs|
    requires k <= j < |vs| && (forall n :: j < n < |vs| ==> FindModule(a, vs[n], name) == None)
    requires j > k ==> FindModule(a, vs[j], name).Some?
    ensures Walk(a, Some(vs[k]), branch, cuts[k], found, name) ==
            if j > k then FindModule(a, vs[j], name) else found
    decreases |vs| - k
  {
    hide Search, FindModule, IsGroup, Walk, Better;
    if k < |vs| - 1 {
      assert Leads(a, branch, vs, cuts, k);
    }
    if cuts[k] >= |branch| {
      if k < |vs| - 1 {
        NoGroup(branch, cuts[k], cuts[k + 1]);
      }
      WalkOver(a, Some(vs[k]), branch, cuts[k], found, name);
    } else {
      GroupIs(branch, cuts[k]);
      WalkStep(a, vs[k], branch, cuts[k], found, name);
      if k == |vs| - 1 {
        assert IsGroup(branch, cuts[k], cuts[k] + SameMode(branch, cuts[k]));
        BetterIs(a, None, found, name);
        WalkOver(a, None, branch, cuts[k] + SameMode(branch, cuts[k]), found, name);
      } else {
        BetterIs(a, Some(vs[k + 1]), found, name);
        var now := Better(a, Some(vs[k + 1]), found, name);
        WalkFrom(a, branch, vs, cuts, k + 1, now, name, if j > k then j else k + 1);
      }
    }
  }

  lemma NoGroup(branch: seq<Tag>, lo: nat, hi: nat)
    requires lo >= |branch|
    ensures !IsGroup(branch, lo, hi)
  {
  }

  lemma BetterIs(a: Arena, node: Option<nat>, found: Option<Module>, name: string)
    requires WF(a) && (node.Some? ==> node.value < Size(a))
    ensures Better(a, node, found, name) ==
            if node.Some? && FindModule(a, node.value, name).Some? then FindModule(a, node.value, name) else found
  {
  }

  // The module is that of the last mode visited that has one, and there is none exactly when
  // none of them has.
  lemma GetModuleExactly(a: Arena, branch: seq<Tag>, name: string, vs: seq<nat>, cuts: seq<nat>, j: nat)
    requires WF(a) && Size(a) > 0 && IsWalk(a, branch, vs, cuts) && j < |vs|
    requires forall n :: j < n < |vs| ==> FindModule(a, vs[n], name) == None
    ensures FindModule(a, vs[j], name).Some? ==> GetModule(a, branch, name) == FindModule(a, vs[j], name)
    ensures j == 0 && FindModule(a, vs[0], name) == None ==> GetModule(a, branch, name) == None
  {
    hide Search, FindModule, Walk, IsGroup;
    if j == 0 || FindModule(a, vs[j], name).Some? {
      WalkFrom(a, branch, vs, cuts, 0, FindModule(a, 0, name), name, j);
    }
  }

  // Every branch has such a walk.
  lemma {:induction false} WalkExists(a: Arena, branch: seq<Tag>) returns (vs: seq<nat>, cuts: seq<nat>)
    requires WF(a) && Size(a) > 0
    ensures IsWalk(a, branch, vs, cuts)
  {
    hide Search, IsGroup, Leads;
    vs, cuts := [0], [1];
    var more := true;
    while more
      invariant Along(a, branch, vs, cuts)
      invariant !more ==> IsWalk(a, branch, vs, cuts)
      decreases more, |branch| - cuts[|vs| - 1]
    {
      var last := |vs| - 1;
      if cuts[last] >= |branch| {
        more := false;
      } else {
        var hi := cuts[last] + SameMode(branch, cuts[last]);
        GroupIs(branch, cuts[last]);
        assert IsGroup(branch, cuts[last], hi);
        SearchRange(a, vs[last], branch[cuts[last]..hi]);
        match Search(a, vs[last], branch[cuts[last]..hi]) {
          case None => more := false;
          case Some(v) =>
            AlongMore(a, branch, vs, cuts, v, hi);
            vs, cuts := vs + [v], cuts + [hi];
        }
      }
    }
  }

  // The beginning of a walk.
  ghost predicate Along(a: Arena, branch: seq<Tag>, vs: seq<nat>, cuts: seq<nat>)
    requires WF(a)
  {
    && |vs| == |cuts| > 0 && vs[0] == 0 && cuts[0] == 1
    && (forall k :: 0 <= k < |vs| ==> vs[k] < Size(a))
    && (forall k :: 0 <= k < |vs| - 1 ==> Leads(a, branch, vs, cuts, k))
  }

  lemma AlongMore(a: Arena, branch: seq<Tag>, vs: seq<nat>, cuts: seq<nat>, v: nat, hi: nat)
    requires WF(a) && Along(a, branch, vs, cuts) && v < Size(a)
    requires IsGroup(branch, cuts[|vs| - 1], hi)
    requires Search(a, vs[|vs| - 1], branch[cuts[|vs| - 1]..hi]) == Some(v)
    ensures Along(a, branch, vs + [v], cuts + [hi])
  {
    hide Search, IsGroup;
    var ws, ds := vs + [v], cuts + [hi];
    forall k | 0 <= k < |ws| - 1
      ensures ws[k] < Size(a) && Leads(a, branch, ws, ds, k)
    {
      if k < |vs| - 1 {
        assert Leads(a, branch, vs, cuts, k);
        assert ws[k] == vs[k] && ws[k + 1] == vs[k + 1] && ds[k] == cuts[k] && ds[k + 1] == cuts[k + 1];
      }
    }
  }
}
