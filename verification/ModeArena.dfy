/** The tuning-mode tree of g_parser/parametersetmanager.h as a value.  Nodes are numbered
    in the order in which they are created; a node's children are listed by number. */
module ModeArena {
  import opened Basics

  datatype Tag = Tag(mode: nat, subMode: nat)

  datatype Module = Module(name: string, serial: nat)

  datatype Arena = Arena(ids: seq<nat>, tags: seq<Tag>, mods: seq<seq<Module>>, par: seq<nat>, kids: seq<seq<nat>>)

  function Size(a: Arena): nat { |a.kids| }

  // Children come after their parent and in the order of creation; every node but the
  // first is a child of its parent and of no other.
  ghost predicate WF(a: Arena) {
    var n := Size(a);
    && |a.ids| == |a.tags| == |a.mods| == |a.par| == n
    && (forall i, j :: 0 <= i < n && 0 <= j < |a.kids[i]| ==> i < a.kids[i][j] < n && a.par[a.kids[i][j]] == i)
    && (forall i, j, k :: 0 <= i < n && 0 <= j < k < |a.kids[i]| ==> a.kids[i][j] < a.kids[i][k])
    && (forall k :: 1 <= k < n ==> a.par[k] < k && k in a.kids[a.par[k]])
  }

  const EMPTY: Arena := Arena([], [], [], [], [])

  function Rooted(id: nat, tag: Tag): Arena { Arena([id], [tag], [[]], [0], [[]]) }

  // A new node as the last child of p.
  function Insert(a: Arena, p: nat, id: nat, tag: Tag): Arena
    requires WF(a) && p < Size(a)
  {
    Arena(a.ids + [id], a.tags + [tag], a.mods + [[]], a.par + [p],
          a.kids[p := a.kids[p] + [Size(a)]] + [[]])
  }

  lemma InsertWF(a: Arena, p: nat, id: nat, tag: Tag)
    requires WF(a) && p < Size(a)
    ensures WF(Insert(a, p, id, tag))
  {
    var b, n := Insert(a, p, id, tag), Size(a);
    InsertKids(a, p, id, tag);
    forall i, j | 0 <= i < n + 1 && 0 <= j < |b.kids[i]|
      ensures i < b.kids[i][j] < n + 1 && b.par[b.kids[i][j]] == i
    {
      if i < n && j < |a.kids[i]| {
        assert i < a.kids[i][j] < n && a.par[a.kids[i][j]] == i;
      }
    }
    forall i, j, k | 0 <= i < n + 1 && 0 <= j < k < |b.kids[i]|
      ensures b.kids[i][j] < b.kids[i][k]
    {
      assert a.kids[i][j] < n;
      assert k < |a.kids[i]| ==> a.kids[i][j] < a.kids[i][k];
    }
    forall k | 1 <= k < n + 1
      ensures b.par[k] < k && k in b.kids[b.par[k]]
    {
      if k < n {
        assert k in a.kids[a.par[k]];
      } else {
        assert b.kids[p][|a.kids[p]|] == n;
      }
    }
  }

  // The lists of children after an insertion.
  lemma InsertKids(a: Arena, p: nat, id: nat, tag: Tag)
    requires WF(a) && p < Size(a)
    ensures
      var b, n := Insert(a, p, id, tag), Size(a);
      && Size(b) == |b.ids| == |b.tags| == |b.mods| == |b.par| == n + 1
      && b.kids[n] == [] && b.kids[p] == a.kids[p] + [n] && b.par[n] == p
      && (forall i :: 0 <= i < n && i != p ==> b.kids[i] == a.kids[i])
      && (forall k :: 0 <= k < n ==> b.par[k] == a.par[k])
  {
  }

  // ---- Depth-first order

  function Preorder(a: Arena, i: nat): seq<nat>
    requires WF(a) && i < Size(a)
    decreases Size(a) - i, |a.kids[i]| + 1
  {
    [i] + Below(a, i, |a.kids[i]|)
  }

  // The subtrees of the first j children of i.
  function Below(a: Arena, i: nat, j: nat): seq<nat>
    requires WF(a) && i < Size(a) && j <= |a.kids[i]|
    decreases Size(a) - i, j
  {
    if j == 0 then [] else Below(a, i, j - 1) + Preorder(a, a.kids[i][j - 1])
  }

  lemma PreorderRange(a: Arena, i: nat, k: nat)
    requires WF(a) && i < Size(a) && k in Preorder(a, i)
    ensures i <= k < Size(a)
    decreases Size(a) - i, |a.kids[i]| + 1
  {
    if k != i {
      BelowRange(a, i, |a.kids[i]|, k);
    }
  }

  lemma BelowRange(a: Arena, i: nat, j: nat, k: nat)
    requires WF(a) && i < Size(a) && j <= |a.kids[i]| && k in Below(a, i, j)
    ensures i < k < Size(a)
    decreases Size(a) - i, j
  {
    if k in Below(a, i, j - 1) {
      BelowRange(a, i, j - 1, k);
    } else {
      PreorderRange(a, a.kids[i][j - 1], k);
    }
  }

  // A child of a node in a subtree is in that subtree.
  lemma PreorderClosed(a: Arena, i: nat, x: nat, c: nat)
    requires WF(a) && i < Size(a) && x in Preorder(a, i) && x < Size(a) && c in a.kids[x]
    ensures c in Preorder(a, i)
    decreases Size(a) - i, |a.kids[i]| + 1
  {
    if x == i {
      var j :| 0 <= j < |a.kids[i]| && a.kids[i][j] == c;
      ChildBelow(a, i, |a.kids[i]|, j, c);
    } else {
      BelowClosed(a, i, |a.kids[i]|, x, c);
    }
  }

  lemma BelowClosed(a: Arena, i: nat, j: nat, x: nat, c: nat)
    requires WF(a) && i < Size(a) && j <= |a.kids[i]| && x in Below(a, i, j) && x < Size(a) && c in a.kids[x]
    ensures c in Below(a, i, j)
    decreases Size(a) - i, j
  {
    if x in Below(a, i, j - 1) {
      BelowClosed(a, i, j - 1, x, c);
    } else {
      PreorderClosed(a, a.kids[i][j - 1], x, c);
    }
  }

  lemma ChildBelow(a: Arena, i: nat, m: nat, j: nat, c: nat)
    requires WF(a) && i < Size(a) && j < m <= |a.kids[i]| && a.kids[i][j] == c
    ensures c in Below(a, i, m)
    decreases m
  {
    if j < m - 1 {
      ChildBelow(a, i, m - 1, j, c);
    } else {
      assert c in Preorder(a, c);
    }
  }

  predicate Stands(s: seq<nat>, t: nat, p: seq<nat>) { t + |p| <= |s| && s[t..t + |p|] == p }

  // A subtree's nodes stand together, from its root on.
  lemma {:induction false} BlockAt(a: Arena, i: nat, t: nat)
    requires WF(a) && i < Size(a) && t < |Preorder(a, i)|
    ensures
      var n := Preorder(a, i)[t];
      n < Size(a) && Stands(Preorder(a, i), t, Preorder(a, n))
    decreases Size(a) - i, |a.kids[i]| + 1
  {
    if t > 0 {
      BlockBelow(a, i, |a.kids[i]|, t - 1);
      var below := Below(a, i, |a.kids[i]|);
      var n := below[t - 1];
      assert Preorder(a, i)[t] == n;
      assert ([i] + below)[t..t + |Preorder(a, n)|] == below[t - 1..t - 1 + |Preorder(a, n)|];
    } else {
      assert Preorder(a, i)[0..|Preorder(a, i)|] == Preorder(a, i);
    }
  }

  lemma {:induction false} BlockBelow(a: Arena, i: nat, j: nat, t: nat)
    requires WF(a) && i < Size(a) && j <= |a.kids[i]| && t < |Below(a, i, j)|
    ensures
      var n := Below(a, i, j)[t];
      n < Size(a) && Stands(Below(a, i, j), t, Preorder(a, n))
    decreases Size(a) - i, j
  {
    BelowIs(a, i, j);
    hide Preorder, Below, WF, Stands;
    var before, c := Below(a, i, j - 1), a.kids[i][j - 1];
    if t < |before| {
      BlockBelow(a, i, j - 1, t);
      BlockLeft(before, Preorder(a, c), t, Preorder(a, before[t]));
    } else {
      var u := t - |before|;
      BlockAt(a, c, u);
      BlockRight(before, Preorder(a, c), u, Preorder(a, Preorder(a, c)[u]));
    }
  }

  lemma BelowIs(a: Arena, i: nat, j: nat)
    requires WF(a) && i < Size(a) && j <= |a.kids[i]| && Below(a, i, j) != []
    ensures j > 0 && i < a.kids[i][j - 1] < Size(a)
    ensures Below(a, i, j) == Below(a, i, j - 1) + Preorder(a, a.kids[i][j - 1])
  {
    hide Preorder;
  }

  lemma BlockLeft(s: seq<nat>, r: seq<nat>, t: nat, p: seq<nat>)
    requires t < |s| && Stands(s, t, p)
    ensures (s + r)[t] == s[t] && Stands(s + r, t, p)
  {
  }

  lemma BlockRight(r: seq<nat>, s: seq<nat>, t: nat, p: seq<nat>)
    requires t < |s| && Stands(s, t, p)
    ensures (r + s)[|r| + t] == s[t] && Stands(r + s, |r| + t, p)
  {
  }

  // Every node is reachable from the root.
  lemma {:induction false} RootCovers(a: Arena, k: nat)
    requires WF(a) && k < Size(a)
    ensures k in Preorder(a, 0)
  {
    if k > 0 {
      RootCovers(a, a.par[k]);
      PreorderClosed(a, 0, a.par[k], k);
    }
  }

  // ---- First match

  function FirstMatch(s: seq<nat>, p: nat -> bool): Option<nat> {
    if s == [] then None else if p(s[0]) then Some(s[0]) else FirstMatch(s[1..], p)
  }

  lemma FirstMatchConcat(s: seq<nat>, t: seq<nat>, p: nat -> bool)
    ensures FirstMatch(s + t, p) == if FirstMatch(s, p).Some? then FirstMatch(s, p) else FirstMatch(t, p)
    decreases |s|
  {
    if s == [] {
      assert s + t == t;
    } else {
      assert (s + t)[1..] == s[1..] + t;
      FirstMatchConcat(s[1..], t, p);
    }
  }

  // The first match is a match, and there is none exactly when nothing matches.
  lemma FirstMatchIs(s: seq<nat>, p: nat -> bool)
    ensures FirstMatch(s, p).Some? ==> FirstMatch(s, p).value in s && p(FirstMatch(s, p).value)
    ensures FirstMatch(s, p).None? <==> forall k :: k in s ==> !p(k)
    decreases |s|
  {
    if s != [] {
      FirstMatchIs(s[1..], p);
    }
  }

  // Nothing that matches comes before the first match.
  lemma {:induction false} FirstMatchFirst(s: seq<nat>, p: nat -> bool) returns (i: nat)
    requires FirstMatch(s, p).Some?
    ensures i < |s| && s[i] == FirstMatch(s, p).value && p(s[i]) && forall j :: 0 <= j < i ==> !p(s[j])
    decreases |s|
  {
    if p(s[0]) {
      i := 0;
    } else {
      var k := FirstMatchFirst(s[1..], p);
      i := k + 1;
      assert forall j :: 0 < j < i ==> s[j] == s[1..][j - 1];
    }
  }

  function HasId(a: Arena, id: nat): nat -> bool { (k: nat) => k < |a.ids| && a.ids[k] == id }

  function HasTag(a: Arena, tag: Tag): nat -> bool { (k: nat) => k < |a.tags| && a.tags[k] == tag }

  // FindMode by id and by mode
  function FindId(a: Arena, i: nat, id: nat): Option<nat>
    requires WF(a) && i < Size(a)
  {
    FirstMatch(Preorder(a, i), HasId(a, id))
  }

  function Find(a: Arena, i: nat, tag: Tag): Option<nat>
    requires WF(a) && i < Size(a)
  {
    FirstMatch(Preorder(a, i), HasTag(a, tag))
  }

  lemma FindIs(a: Arena, i: nat, tag: Tag)
    requires WF(a) && i < Size(a)
    ensures
      match Find(a, i, tag)
      case Some(k) => i <= k < Size(a) && k in Preorder(a, i) && a.tags[k] == tag
      case None => true
  {
    FirstMatchIs(Preorder(a, i), HasTag(a, tag));
    if Find(a, i, tag).Some? {
      PreorderRange(a, i, Find(a, i, tag).value);
    }
  }

  // From the root, an id is found exactly when some node carries it.
  lemma FindIdFromRoot(a: Arena, id: nat)
    requires WF(a) && Size(a) > 0
    ensures FindId(a, 0, id).Some? <==> id in a.ids
    ensures FindId(a, 0, id).Some? ==> FindId(a, 0, id).value < Size(a) && a.ids[FindId(a, 0, id).value] == id
  {
    FirstMatchIs(Preorder(a, 0), HasId(a, id));
    if FindId(a, 0, id).Some? {
      PreorderRange(a, 0, FindId(a, 0, id).value);
    } else if id in a.ids {
      var k :| 0 <= k < |a.ids| && a.ids[k] == id;
      RootCovers(a, k);
    }
  }
}
