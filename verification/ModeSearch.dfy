/** The search for a list of modes in any order, of g_parser/parametersetmanager.h, against
    a definition that does not search: some ordering of the list leads down the tree. */
module ModeSearch {
  import opened Basics
  import opened ModeArena

  function Without<T>(s: seq<T>, i: nat): seq<T>
    requires i < |s|
  {
    s[..i] + s[i + 1..]
  }

  // FindMode(modes, count): for each mode in turn, find it first and the others below.
  function Search(a: Arena, i: nat, modes: seq<Tag>): (r: Option<nat>)
    requires WF(a) && i < Size(a)
    ensures r.Some? ==> r.value < Size(a)
    decreases |modes|, |modes| + 1
  {
    SearchFrom(a, i, modes, 0)
  }

  // The loop from index on.
  function SearchFrom(a: Arena, i: nat, modes: seq<Tag>, index: nat): (r: Option<nat>)
    requires WF(a) && i < Size(a) && index <= |modes|
    ensures r.Some? ==> r.value < Size(a)
    decreases |modes|, |modes| - index
  {
    if index == |modes| then None
    else
      FindIs(a, i, modes[index]);
      var found := Find(a, i, modes[index]);
      var below := if found.Some? && |modes| > 1 then Search(a, found.value, Without(modes, index)) else found;
      if below.Some? then below else SearchFrom(a, i, modes, index + 1)
  }

  // Following one ordering down: each mode is the first match, in depth-first order, at
  // or below the one before.
  function Descend(a: Arena, i: nat, p: seq<Tag>): (r: Option<nat>)
    requires WF(a) && i < Size(a)
    ensures r.Some? ==> i <= r.value < Size(a)
    decreases |p|
  {
    if p == [] then Some(i)
    else
      FindIs(a, i, p[0]);
      match Find(a, i, p[0])
      case None => None
      case Some(k) => Descend(a, k, p[1..])
  }

  ghost predicate IsOrdering(p: seq<Tag>, modes: seq<Tag>) { multiset(p) == multiset(modes) }

  lemma OrderingLength(p: seq<Tag>, modes: seq<Tag>)
    requires IsOrdering(p, modes)
    ensures |p| == |modes|
  {
    assert |multiset(p)| == |p| && |multiset(modes)| == |modes|;
  }

  lemma WithoutOrdering(p: seq<Tag>, modes: seq<Tag>, index: nat)
    requires index < |modes| && p != [] && p[0] == modes[index]
    ensures IsOrdering(p[1..], Without(modes, index)) <==> IsOrdering(p, modes)
  {
    assert modes == modes[..index] + ([modes[index]] + modes[index + 1..]);
    assert multiset(modes) == multiset(Without(modes, index)) + multiset{modes[index]};
    assert p == [p[0]] + p[1..];
    assert multiset(p) == multiset(p[1..]) + multiset{p[0]};
    assert multiset(p[1..]) == multiset(p) - multiset{p[0]};
    assert multiset(Without(modes, index)) == multiset(modes) - multiset{modes[index]};
  }

  // Soundness: what the search returns ends the descent of some ordering.
  lemma {:induction false} SearchSound(a: Arena, i: nat, modes: seq<Tag>, index: nat) returns (p: seq<Tag>)
    requires WF(a) && i < Size(a) && index <= |modes| && SearchFrom(a, i, modes, index).Some?
    ensures IsOrdering(p, modes) && Descend(a, i, p) == SearchFrom(a, i, modes, index)
    decreases |modes|, |modes| - index
  {
    FindIs(a, i, modes[index]);
    var found := Find(a, i, modes[index]);
    var rest := Without(modes, index);
    if found.Some? && |modes| > 1 && Search(a, found.value, rest).Some? {
      var q := SearchSound(a, found.value, rest, 0);
      p := [modes[index]] + q;
      assert p[1..] == q;
      WithoutOrdering(p, modes, index);
    } else if found.Some? && |modes| == 1 {
      p := [modes[0]];
      assert p == modes && p[1..] == [];
    } else {
      p := SearchSound(a, i, modes, index + 1);
    }
  }

  // Completeness: if the descent of some ordering succeeds, so does the search.
  lemma {:induction false} SearchComplete(a: Arena, i: nat, modes: seq<Tag>, p: seq<Tag>)
    requires WF(a) && i < Size(a) && modes != [] && IsOrdering(p, modes) && Descend(a, i, p).Some?
    ensures Search(a, i, modes).Some?
    decreases |modes|
  {
    OrderingLength(p, modes);
    assert p[0] in multiset(p);
    var index :| 0 <= index < |modes| && modes[index] == p[0];
    WithoutOrdering(p, modes, index);
    FindIs(a, i, p[0]);
    var found := Find(a, i, p[0]);
    if |modes| > 1 {
      SearchComplete(a, found.value, Without(modes, index), p[1..]);
    }
    SearchReaches(a, i, modes, 0, index);
  }

  // The loop does not miss an index at which it would succeed.
  lemma SearchReaches(a: Arena, i: nat, modes: seq<Tag>, from: nat, index: nat)
    requires WF(a) && i < Size(a) && from <= index < |modes|
    requires SearchFrom(a, i, modes, index).Some?
    ensures SearchFrom(a, i, modes, from).Some?
    decreases index - from
  {
    if from < index {
      SearchReaches(a, i, modes, from + 1, index);
    }
  }

  // The search succeeds exactly when some ordering of the list does, and returns where
  // such an ordering ends.
  lemma SearchExactly(a: Arena, i: nat, modes: seq<Tag>)
    requires WF(a) && i < Size(a)
    ensures Search(a, i, modes).Some? <==>
            modes != [] && exists p :: IsOrdering(p, modes) && Descend(a, i, p).Some?
    ensures Search(a, i, modes).Some? ==>
              exists p :: IsOrdering(p, modes) && Descend(a, i, p) == Search(a, i, modes)
  {
    if Search(a, i, modes).Some? {
      var p := SearchSound(a, i, modes, 0);
    }
    if modes != [] && exists p :: IsOrdering(p, modes) && Descend(a, i, p).Some? {
      var p :| IsOrdering(p, modes) && Descend(a, i, p).Some?;
      SearchComplete(a, i, modes, p);
    }
  }

  // ---- Order of the list

  // From node i, two different modes lead down in either order.
  ghost predicate BothWays(a: Arena, i: nat, x: Tag, y: Tag)
    requires WF(a) && i < Size(a)
  {
    x != y && Descend(a, i, [x, y]).Some? && Descend(a, i, [y, x]).Some?
  }

  ghost predicate SameResult(a: Arena, i: nat, modes: seq<Tag>, modes': seq<Tag>)
    requires WF(a) && i < Size(a)
  {
    IsOrdering(modes, modes') ==> Search(a, i, modes) == Search(a, i, modes')
  }

  // A descent that goes on to a mode has a first match for it.
  lemma {:induction false} DescendReaches(a: Arena, i: nat, p: seq<Tag>, m: Tag)
    requires WF(a) && i < Size(a) && m in p && Descend(a, i, p).Some?
    ensures Find(a, i, m).Some?
    decreases |p|
  {
    FindIs(a, i, p[0]);
    if m != p[0] {
      var k := Find(a, i, p[0]).value;
      DescendReaches(a, k, p[1..], m);
      FindIs(a, k, m);
      FindInside(a, i, k, m);
    }
  }

  // What is below a node below i is below i.
  lemma FindInside(a: Arena, i: nat, k: nat, m: Tag)
    requires WF(a) && i < Size(a) && k in Preorder(a, i) && i <= k < Size(a) && Find(a, k, m).Some?
    ensures Find(a, i, m).Some?
  {
    FindIs(a, k, m);
    var n := Find(a, k, m).value;
    var t :| 0 <= t < |Preorder(a, i)| && Preorder(a, i)[t] == k;
    BlockAt(a, i, t);
    var j :| 0 <= j < |Preorder(a, k)| && Preorder(a, k)[j] == n;
    assert Preorder(a, i)[t..t + |Preorder(a, k)|][j] == Preorder(a, i)[t + j];
    assert n in Preorder(a, i);
    FirstMatchIs(Preorder(a, i), HasTag(a, m));
  }

  // Two orderings that succeed and begin differently lead down in either order.
  lemma HeadsClash(a: Arena, i: nat, p: seq<Tag>, q: seq<Tag>)
    requires WF(a) && i < Size(a) && multiset(p) == multiset(q) && p != [] && q != [] && p[0] != q[0]
    requires Descend(a, i, p).Some? && Descend(a, i, q).Some?
    ensures BothWays(a, i, p[0], q[0])
  {
    OtherHead(a, i, p, q);
    OtherHead(a, i, q, p);
  }

  // A descent along two modes.
  lemma PairIs(a: Arena, i: nat, x: Tag, y: Tag)
    requires WF(a) && i < Size(a)
    ensures Find(a, i, x).Some? ==> Find(a, i, x).value < Size(a)
    ensures
      match Find(a, i, x)
      case None => Descend(a, i, [x, y]) == None
      case Some(k) => Descend(a, i, [x, y]) == Find(a, k, y)
  {
    hide Find, WF;
    FindIs(a, i, x);
    assert [x, y][1..] == [y] && [y][1..] == [];
    if Find(a, i, x).Some? {
      var k := Find(a, i, x).value;
      FindIs(a, k, y);
      assert Descend(a, k, [y]) == Find(a, k, y);
    }
  }

  lemma OtherHead(a: Arena, i: nat, p: seq<Tag>, q: seq<Tag>)
    requires WF(a) && i < Size(a) && multiset(p) == multiset(q) && p != [] && q != [] && p[0] != q[0]
    requires Descend(a, i, p).Some?
    ensures Descend(a, i, [p[0], q[0]]).Some?
  {
    hide Find;
    assert q[0] in multiset(q);
    assert q[0] in p && p == [p[0]] + p[1..];
    FindIs(a, i, p[0]);
    DescendReaches(a, Find(a, i, p[0]).value, p[1..], q[0]);
    PairIs(a, i, p[0], q[0]);
  }

  // So if that never happens, at most one ordering of a list succeeds.
  lemma {:induction false} OneOrdering(a: Arena, i: nat, p: seq<Tag>, q: seq<Tag>)
    requires WF(a) && i < Size(a) && multiset(p) == multiset(q)
    requires Descend(a, i, p).Some? && Descend(a, i, q).Some?
    requires forall j, x, y :: 0 <= j < Size(a) ==> !BothWays(a, j, x, y)
    ensures p == q
    decreases |p|
  {
    OrderingLength(p, q);
    if p != [] {
      if p[0] != q[0] {
        HeadsClash(a, i, p, q);
      }
      assert p == [p[0]] + p[1..] && q == [q[0]] + q[1..];
      assert multiset(p[1..]) == multiset(p) - multiset{p[0]} == multiset(q[1..]);
      FindIs(a, i, p[0]);
      OneOrdering(a, Find(a, i, p[0]).value, p[1..], q[1..]);
    }
  }

  lemma OneResult(a: Arena, i: nat, modes: seq<Tag>, modes': seq<Tag>)
    requires WF(a) && i < Size(a) && IsOrdering(modes, modes')
    requires forall j, x, y :: 0 <= j < Size(a) ==> !BothWays(a, j, x, y)
    ensures Search(a, i, modes) == Search(a, i, modes')
  {
    OrderingLength(modes, modes');
    if modes != [] && Search(a, i, modes).Some? {
      var p := SearchSound(a, i, modes, 0);
      SearchComplete(a, i, modes', p);
      var q := SearchSound(a, i, modes', 0);
      OneOrdering(a, i, p, q);
    } else if modes != [] && Search(a, i, modes').Some? {
      var p := SearchSound(a, i, modes', 0);
      SearchComplete(a, i, modes, p);
    }
  }

  // Where two modes lead down in either order, the list of the two gives two nodes.
  lemma TwoResults(a: Arena, i: nat, x: Tag, y: Tag)
    requires WF(a) && i < Size(a) && BothWays(a, i, x, y)
    ensures IsOrdering([x, y], [y, x]) && Search(a, i, [x, y]) != Search(a, i, [y, x])
  {
    PairSearch(a, i, x, y);
    PairSearch(a, i, y, x);
    assert multiset([x, y]) == multiset{x, y} == multiset([y, x]);
  }

  lemma PairSearch(a: Arena, i: nat, x: Tag, y: Tag)
    requires WF(a) && i < Size(a) && Descend(a, i, [x, y]).Some?
    ensures Search(a, i, [x, y]).Some? && Search(a, i, [x, y]).value < |a.tags|
    ensures a.tags[Search(a, i, [x, y]).value] == y
  {
    hide Find;
    PairIs(a, i, x, y);
    FindIs(a, i, x);
    var k := Find(a, i, x).value;
    FindIs(a, k, y);
    assert Without([x, y], 0) == [y];
    SingleSearch(a, k, y);
  }

  lemma SingleSearch(a: Arena, i: nat, y: Tag)
    requires WF(a) && i < Size(a)
    ensures Search(a, i, [y]) == Find(a, i, y)
  {
    hide Find;
    FindIs(a, i, y);
    assert SearchFrom(a, i, [y], 1) == None;
  }

  // The result of the search depends on the order of the list, for some start and some
  // list, exactly when from some node two different modes lead down in either order.
  lemma OrderExactly(a: Arena)
    requires WF(a)
    ensures (forall i, modes, modes' :: 0 <= i < Size(a) ==> SameResult(a, i, modes, modes'))
            <==> forall j, x, y :: 0 <= j < Size(a) ==> !BothWays(a, j, x, y)
  {
    hide Search, Descend;
    if forall j, x, y :: 0 <= j < Size(a) ==> !BothWays(a, j, x, y) {
      forall i, modes, modes' | 0 <= i < Size(a)
        ensures SameResult(a, i, modes, modes')
      {
        if IsOrdering(modes, modes') {
          OneResult(a, i, modes, modes');
        }
      }
    } else {
      var j, x, y :| 0 <= j < Size(a) && BothWays(a, j, x, y);
      TwoResults(a, j, x, y);
      assert !SameResult(a, j, [x, y], [y, x]);
    }
  }

  // ---- What can be checked on the tree

  // On one way down from the root a mode comes twice with another between.
  ghost predicate Enclosed(a: Arena, u: nat, v: nat, w: nat)
    requires WF(a)
  {
    && u < Size(a) && v < Size(a) && w < Size(a) && v in Preorder(a, u) && w in Preorder(a, v)
    && a.tags[u] == a.tags[w] != a.tags[v]
  }

  // Of two modes that lead down in either order, the one met first encloses the other.
  lemma BothWaysEnclose(a: Arena, i: nat, x: Tag, y: Tag) returns (u: nat, v: nat, w: nat)
    requires WF(a) && i < Size(a) && BothWays(a, i, x, y)
    ensures Enclosed(a, u, v, w)
  {
    var s := Preorder(a, i);
    assert [x, y][1..] == [y] && [y, x][1..] == [x];
    FindIs(a, i, x);
    FindIs(a, i, y);
    var at := FirstMatchFirst(s, HasTag(a, x));
    var bt := FirstMatchFirst(s, HasTag(a, y));
    if at < bt {
      u, v, w := EncloseFrom(a, i, x, y, at, bt);
    } else {
      u, v, w := EncloseFrom(a, i, y, x, bt, at);
    }
  }

  lemma EncloseFrom(a: Arena, i: nat, x: Tag, y: Tag, at: nat, bt: nat) returns (u: nat, v: nat, w: nat)
    requires WF(a) && i < Size(a) && x != y && at < bt < |Preorder(a, i)|
    requires Find(a, i, x) == Some(Preorder(a, i)[at]) && Find(a, i, y) == Some(Preorder(a, i)[bt])
    requires forall j :: 0 <= j < bt ==> !HasTag(a, y)(Preorder(a, i)[j])
    requires Descend(a, i, [x, y]).Some? && Descend(a, i, [y, x]).Some?
    ensures Enclosed(a, u, v, w)
  {
    hide Preorder, Find, Descend;
    var s := Preorder(a, i);
    PairIs(a, i, x, y);
    PairIs(a, i, y, x);
    FindIs(a, i, x);
    FindIs(a, i, y);
    u, v := s[at], s[bt];
    FindIs(a, u, y);
    FindIs(a, v, x);
    w := Find(a, v, x).value;
    BlockAt(a, i, at);
    InBlock(s, at, Preorder(a, u), bt, Find(a, u, y).value, HasTag(a, y));
  }

  // If the first match after a block has begun is not past every match in the block, it is
  // in the block.
  lemma InBlock(s: seq<nat>, at: nat, block: seq<nat>, bt: nat, c: nat, p: nat -> bool)
    requires at < bt < |s| && at + |block| <= |s| && s[at..at + |block|] == block
    requires (forall j :: 0 <= j < bt ==> !p(s[j])) && c in block && p(c)
    ensures s[bt] in block
  {
    var j :| 0 <= j < |block| && block[j] == c;
    assert s[at + j] == c;
    assert block[bt - at] == s[bt];
  }

  // A tree in which no mode encloses another gives every list one result, whatever its
  // order; so does, as a special case, one in which no two nodes are alike.
  lemma OrderIndependent(a: Arena, i: nat, modes: seq<Tag>, modes': seq<Tag>)
    requires WF(a) && i < Size(a) && IsOrdering(modes, modes')
    requires UniqueTags(a) || forall u, v, w :: !Enclosed(a, u, v, w)
    ensures Search(a, i, modes) == Search(a, i, modes')
  {
    hide Search, Descend;
    forall j, x, y | 0 <= j < Size(a)
      ensures !BothWays(a, j, x, y)
    {
      if BothWays(a, j, x, y) {
        var u, v, w := BothWaysEnclose(a, j, x, y);
        if UniqueTags(a) {
          UniqueNotEnclosed(a, u, v, w);
        }
      }
    }
    OneResult(a, i, modes, modes');
  }

  // No two nodes carry the same mode and sub-mode.
  ghost predicate UniqueTags(a: Arena) {
    forall j, k :: 0 <= j < k < |a.tags| ==> a.tags[j] != a.tags[k]
  }

  lemma UniqueNotEnclosed(a: Arena, u: nat, v: nat, w: nat)
    requires WF(a) && UniqueTags(a)
    ensures !Enclosed(a, u, v, w)
  {
    if u < Size(a) && v < Size(a) && v in Preorder(a, u) && w in Preorder(a, v) {
      PreorderRange(a, u, v);
      PreorderRange(a, v, w);
    }
  }

  // For instance, a chain A - B - A below the root gives the third node for one order and
  // the second for the other.
  lemma OrderMatters()
    ensures
      var r, x, y := Tag(0, 0), Tag(1, 0), Tag(1, 1);
      var a := Arena([0, 1, 2, 3], [r, x, y, x], [[], [], [], []], [0, 0, 1, 2], [[1], [2], [3], []]);
      && WF(a) && !UniqueTags(a)
      && Search(a, 0, [x, y]) == Some(2) && Search(a, 0, [y, x]) == Some(3)
  {
    var r, x, y := Tag(0, 0), Tag(1, 0), Tag(1, 1);
    var a := Arena([0, 1, 2, 3], [r, x, y, x], [[], [], [], []], [0, 0, 1, 2], [[1], [2], [3], []]);
    assert a.kids[0][0] == 1 && a.kids[1][0] == 2 && a.kids[2][0] == 3;
    assert WF(a);
    assert a.tags[1] == a.tags[3];
    hide WF, Preorder, Below, Search, UniqueTags;
    assert !UniqueTags(a) by {
      SharedTag(a, 1, 3);
    }
    ChainPreorder(a);
    ChainFinds(a, x, y);
    ChainSearch(a, x, y);
  }

  lemma SharedTag(a: Arena, i: nat, j: nat)
    requires WF(a) && i < j < Size(a) && a.tags[i] == a.tags[j]
    ensures !UniqueTags(a)
  {
  }

  lemma ChainPreorder(a: Arena)
    requires WF(a) && a.kids == [[1], [2], [3], []]
    ensures Preorder(a, 0) == [0, 1, 2, 3] && Preorder(a, 1) == [1, 2, 3] && Preorder(a, 2) == [2, 3]
  {
    assert Preorder(a, 3) == [3];
    assert Below(a, 2, 1) == Below(a, 2, 0) + Preorder(a, 3);
    assert Preorder(a, 2) == [2, 3];
    assert Below(a, 1, 1) == Below(a, 1, 0) + Preorder(a, 2);
    assert Preorder(a, 1) == [1, 2, 3];
    assert Below(a, 0, 1) == Below(a, 0, 0) + Preorder(a, 1);
    assert Preorder(a, 0) == [0, 1, 2, 3];
  }

  lemma ChainFinds(a: Arena, x: Tag, y: Tag)
    requires WF(a) && Size(a) == 4 && x != y && x != Tag(0, 0) && y != Tag(0, 0)
    requires a.tags == [Tag(0, 0), x, y, x]
    requires Preorder(a, 0) == [0, 1, 2, 3] && Preorder(a, 1) == [1, 2, 3] && Preorder(a, 2) == [2, 3]
    ensures Find(a, 0, x) == Some(1) && Find(a, 0, y) == Some(2)
    ensures Find(a, 1, y) == Some(2) && Find(a, 2, x) == Some(3)
  {
    FirstMatchConcat([0], [1, 2, 3], HasTag(a, x));
    FirstMatchConcat([1], [2, 3], HasTag(a, x));
    FirstMatchConcat([0], [1, 2, 3], HasTag(a, y));
    FirstMatchConcat([1], [2, 3], HasTag(a, y));
    FirstMatchConcat([2], [3], HasTag(a, x));
    FirstMatchConcat([2], [3], HasTag(a, y));
    assert [0] + [1, 2, 3] == [0, 1, 2, 3] && [1] + [2, 3] == [1, 2, 3] && [2] + [3] == [2, 3];
  }

  lemma ChainSearch(a: Arena, x: Tag, y: Tag)
    requires WF(a) && Size(a) == 4
    requires Find(a, 0, x) == Some(1) && Find(a, 0, y) == Some(2)
    requires Find(a, 1, y) == Some(2) && Find(a, 2, x) == Some(3)
    ensures Search(a, 0, [x, y]) == Some(2) && Search(a, 0, [y, x]) == Some(3)
  {
    hide Find;
    assert Without([x, y], 0) == [y] && Without([y, x], 0) == [x];
    assert Search(a, 1, [y]) == Some(2);
    assert Search(a, 2, [x]) == Some(3);
  }
}
