/** Drawing a namespace breadth-first within a budget, as sequences of paths. */
module Picture {
  import opened Collections
  import opened MessageLog

  ghost predicate IsChild(p: Path, q: Path) {
    |q| == |p| + 1 && q[..|p|] == p
  }

  ghost function Parent(q: Path): Path
    requires q != []
  {
    q[..|q| - 1]
  }

  /** All children of `p`, loudest first. */
  ghost predicate ChildList(all: set<Path>, loud: map<Path, nat>, p: Path, kids: seq<Path>)
    requires loud.Keys == all
  {
    && NoRepeats(kids)
    && (forall i :: 0 <= i < |kids| ==> kids[i] in all && IsChild(p, kids[i]))
    && (forall q {:trigger q in kids} :: q in all && IsChild(p, q) ==> q in kids)
    && (forall i, j :: 0 <= i < j < |kids| ==> kids[i] in all && kids[j] in all && loud[kids[i]] >= loud[kids[j]])
  }

  ghost predicate PrefixClosed(all: set<Path>) {
    forall q {:trigger HasParent(all, q)} :: q in all && q != [] ==> HasParent(all, q)
  }

  ghost predicate HasParent(all: set<Path>, q: Path)
    requires q != []
  {
    Parent(q) in all
  }

  /** Distinct nodes of one depth. */
  ghost predicate LevelNodes(all: set<Path>, level: seq<Path>, depth: nat) {
    NoRepeats(level) && forall i :: 0 <= i < |level| ==> level[i] in all && |level[i]| == depth
  }

  /** Distinct children of the given parents. */
  ghost predicate ChildrenOf(all: set<Path>, parents: seq<Path>, added: seq<Path>) {
    NoRepeats(added)
    && forall i :: 0 <= i < |added| ==> added[i] in all && added[i] != [] && Parent(added[i]) in parents
  }

  ghost predicate Complete(all: set<Path>, parents: seq<Path>, added: seq<Path>) {
    forall q {:trigger q in added} :: q in all && q != [] && Parent(q) in parents ==> q in added
  }

  /** Every drawn sibling of `q` is at least as loud as `q`. */
  ghost predicate NoLouder(loud: map<Path, nat>, drawn: seq<Path>, q: Path)
    requires q in loud && q != []
  {
    forall i :: 0 <= i < |drawn| && drawn[i] in loud && drawn[i] != [] && Parent(drawn[i]) == Parent(q) ==>
      loud[drawn[i]] >= loud[q]
  }

  ghost predicate LoudestKept(all: set<Path>, loud: map<Path, nat>, parents: seq<Path>, added: seq<Path>)
    requires loud.Keys == all
  {
    forall q {:trigger NoLouder(loud, added, q)} :: q in all && q != [] && Parent(q) in parents && q !in added ==>
      NoLouder(loud, added, q)
  }

  ghost predicate Siblings(loud: map<Path, nat>, p: Path, q: Path) {
    p in loud && q in loud && p != [] && q != [] && Parent(p) == Parent(q)
  }

  /** Siblings stand loudest first. */
  ghost predicate LoudestSiblingFirst(loud: map<Path, nat>, drawn: seq<Path>) {
    forall i, j :: 0 <= i < j < |drawn| && Siblings(loud, drawn[i], drawn[j]) ==> loud[drawn[i]] >= loud[drawn[j]]
  }

  /** The paths part after k levels, and the first one's branch is at least as loud as the other's. */
  ghost predicate PartsAt(loud: map<Path, nat>, r: Path, q: Path, k: nat) {
    && k < |r| && k < |q| && r[..k] == q[..k] && r[k] != q[k]
    && r[..k + 1] in loud && q[..k + 1] in loud && loud[r[..k + 1]] >= loud[q[..k + 1]]
  }

  /** Where the paths part, the first one's branch is at least as loud. */
  ghost predicate Outranks(loud: map<Path, nat>, r: Path, q: Path) {
    exists k: nat {:trigger PartsAt(loud, r, q, k)} :: PartsAt(loud, r, q, k)
  }

  ghost predicate Ranked(loud: map<Path, nat>, s: seq<Path>) {
    forall i, j {:trigger Outranks(loud, s[i], s[j])} :: 0 <= i < j < |s| ==> Outranks(loud, s[i], s[j])
  }

  /** Every child drawn outranks every child left out, whoever their parents are. */
  ghost predicate OutrankOmitted(all: set<Path>, loud: map<Path, nat>, parents: seq<Path>, added: seq<Path>) {
    forall q, i {:trigger Outranks(loud, added[i], q)} ::
      0 <= i < |added| && q in all && q != [] && Parent(q) in parents && q !in added ==> Outranks(loud, added[i], q)
  }

  lemma OutranksBelow(loud: map<Path, nat>, r: Path, q: Path)
    requires r != [] && q != [] && Outranks(loud, Parent(r), Parent(q))
    ensures Outranks(loud, r, q)
  {
    var k: nat :| PartsAt(loud, Parent(r), Parent(q), k);
    assert r[..k + 1] == Parent(r)[..k + 1] && q[..k + 1] == Parent(q)[..k + 1];
    assert r[..k] == Parent(r)[..k] && q[..k] == Parent(q)[..k];
    assert PartsAt(loud, r, q, k);
  }

  lemma OutranksSibling(loud: map<Path, nat>, r: Path, q: Path)
    requires Siblings(loud, r, q) && r != q && loud[r] >= loud[q]
    ensures Outranks(loud, r, q)
  {
    var k := |r| - 1;
    assert r == Parent(r) + [r[k]] && q == Parent(q) + [q[k]];
    assert r[..k + 1] == r && q[..k + 1] == q;
    assert PartsAt(loud, r, q, k);
  }

  /** All children of the first k parents, siblings in order. */
  ghost predicate LevelPart(all: set<Path>, loud: map<Path, nat>, level: seq<Path>, k: nat, added: seq<Path>)
    requires k <= |level|
  {
    && ChildrenOf(all, level[..k], added) && Complete(all, level[..k], added)
    && LoudestSiblingFirst(loud, added) && Ranked(loud, added)
  }

  /** The children of a level that were drawn, in order, none louder left out. */
  ghost predicate LevelDrawn(all: set<Path>, loud: map<Path, nat>, level: seq<Path>, added: seq<Path>)
    requires loud.Keys == all
  {
    && ChildrenOf(all, level, added) && LoudestKept(all, loud, level, added) && LoudestSiblingFirst(loud, added)
    && Ranked(loud, added) && OutrankOmitted(all, loud, level, added)
  }

  lemma DrawnJoin(a: seq<Path>, b: seq<Path>, c: seq<Path>)
    ensures a + b + c == a + (b + c)
  {
  }

  lemma PartIsDrawn(all: set<Path>, loud: map<Path, nat>, level: seq<Path>, added: seq<Path>)
    requires loud.Keys == all && LevelPart(all, loud, level, |level|, added)
    ensures LevelDrawn(all, loud, level, added) && Complete(all, level, added)
  {
    assert level[..|level|] == level;
  }

  /** Adding the first `t` children of the next parent. */
  lemma TakeKids(all: set<Path>, loud: map<Path, nat>, level: seq<Path>, k: nat, kids: seq<Path>, added: seq<Path>,
                 t: nat)
    requires loud.Keys == all && k < |level| && NoRepeats(level) && t <= |kids|
    requires LevelPart(all, loud, level, k, added) && ChildList(all, loud, level[k], kids) && Ranked(loud, level)
    ensures LevelDrawn(all, loud, level, added + kids[..t])
    ensures t == |kids| ==> LevelPart(all, loud, level, k + 1, added + kids[..t])
  {
    TakeKidsInOrder(all, loud, level, k, kids, added, t);
    TakeKidsChildren(all, loud, level, k, kids, added, t);
    TakeKidsKept(all, loud, level, k, kids, added, t);
    TakeKidsRanked(all, loud, level, k, kids, added, t);
    TakeKidsOutrank(all, loud, level, k, kids, added, t);
    if t == |kids| {
      assert kids[..t] == kids;
      TakeKidsComplete(all, loud, level, k, kids, added);
    }
  }

  lemma TakeKidsInOrder(all: set<Path>, loud: map<Path, nat>, level: seq<Path>, k: nat, kids: seq<Path>,
                        added: seq<Path>,
                        t: nat)
    requires loud.Keys == all && k < |level| && NoRepeats(level) && t <= |kids|
    requires ChildrenOf(all, level[..k], added) && LoudestSiblingFirst(loud, added)
    requires ChildList(all, loud, level[k], kids)
    ensures LoudestSiblingFirst(loud, added + kids[..t])
  {
    assert forall i :: 0 <= i < |kids| ==> Parent(kids[i]) == level[k];
    assert level[k] !in level[..k];
  }

  /** A child of an earlier parent outranks a child of a later one. */
  lemma ParentsOutrank(loud: map<Path, nat>, level: seq<Path>, a: nat, b: nat, r: Path, q: Path)
    requires Ranked(loud, level) && a < b < |level|
    requires r != [] && q != [] && Parent(r) == level[a] && Parent(q) == level[b]
    ensures Outranks(loud, r, q)
  {
    assert Outranks(loud, level[a], level[b]);
    OutranksBelow(loud, r, q);
  }

  lemma TakeKidsRanked(all: set<Path>, loud: map<Path, nat>, level: seq<Path>, k: nat, kids: seq<Path>,
                       added: seq<Path>, t: nat)
    requires loud.Keys == all && k < |level| && t <= |kids|
    requires ChildrenOf(all, level[..k], added) && Ranked(loud, added) && Ranked(loud, level)
    requires ChildList(all, loud, level[k], kids)
    ensures Ranked(loud, added + kids[..t])
  {
    var s, n := added + kids[..t], |added|;
    forall i, j | 0 <= i < j < |s| ensures Outranks(loud, s[i], s[j]) {
      if j < n {
        assert Outranks(loud, added[i], added[j]);
      } else if i < n {
        var a :| 0 <= a < k && level[..k][a] == Parent(added[i]);
        ParentsOutrank(loud, level, a, k, added[i], kids[j - n]);
      } else {
        OutranksSibling(loud, kids[i - n], kids[j - n]);
      }
    }
  }

  lemma TakeKidsOutrank(all: set<Path>, loud: map<Path, nat>, level: seq<Path>, k: nat, kids: seq<Path>,
                        added: seq<Path>, t: nat)
    requires loud.Keys == all && k < |level| && t <= |kids|
    requires ChildrenOf(all, level[..k], added) && Complete(all, level[..k], added) && Ranked(loud, level)
    requires ChildList(all, loud, level[k], kids)
    ensures OutrankOmitted(all, loud, level, added + kids[..t])
  {
    var s, n := added + kids[..t], |added|;
    forall q, i | 0 <= i < |s| && q in all && q != [] && Parent(q) in level && q !in s ensures Outranks(loud, s[i], q) {
      var b :| 0 <= b < |level| && level[b] == Parent(q);
      assert q !in added && Parent(q) !in level[..k];
      assert forall c :: 0 <= c < k ==> level[..k][c] == level[c];
      assert b >= k;
      if i < n {
        var a :| 0 <= a < k && level[..k][a] == Parent(added[i]);
        ParentsOutrank(loud, level, a, b, added[i], q);
      } else if b > k {
        ParentsOutrank(loud, level, k, b, kids[i - n], q);
      } else {
        LaterKid(all, loud, level[k], kids, t, i - n, q);
      }
    }
  }

  lemma LaterKid(all: set<Path>, loud: map<Path, nat>, p: Path, kids: seq<Path>, t: nat, i: nat, q: Path)
    requires loud.Keys == all && ChildList(all, loud, p, kids) && i < t <= |kids|
    requires q in all && IsChild(p, q) && q !in kids[..t]
    ensures Outranks(loud, kids[i], q)
  {
    assert q in kids;
    var j :| 0 <= j < |kids| && kids[j] == q;
    assert forall c :: 0 <= c < t ==> kids[..t][c] == kids[c];
    assert j >= t;
    OutranksSibling(loud, kids[i], q);
  }

  lemma TakeKidsChildren(all: set<Path>, loud: map<Path, nat>, level: seq<Path>, k: nat, kids: seq<Path>,
                         added: seq<Path>,
                         t: nat)
    requires loud.Keys == all && k < |level| && NoRepeats(level) && t <= |kids|
    requires ChildrenOf(all, level[..k], added) && ChildList(all, loud, level[k], kids)
    ensures ChildrenOf(all, level[..k + 1], added + kids[..t]) && ChildrenOf(all, level, added + kids[..t])
  {
    assert forall i :: 0 <= i < |kids| ==> Parent(kids[i]) == level[k];
    assert level[k] !in level[..k];
    assert level[..k + 1] == level[..k] + [level[k]];
  }

  lemma TakeKidsKept(all: set<Path>, loud: map<Path, nat>, level: seq<Path>, k: nat, kids: seq<Path>, added: seq<Path>,
                     t: nat)
    requires loud.Keys == all && k < |level| && NoRepeats(level) && t <= |kids|
    requires ChildrenOf(all, level[..k], added) && Complete(all, level[..k], added)
    requires ChildList(all, loud, level[k], kids)
    ensures LoudestKept(all, loud, level, added + kids[..t])
  {
    var p, added' := level[k], added + kids[..t];
    assert forall i :: 0 <= i < |kids| ==> Parent(kids[i]) == p;
    assert p !in level[..k];
    assert forall i :: 0 <= i < t ==> kids[..t][i] == kids[i] && kids[i] in kids[..t];
    forall q | q in all && q != [] && Parent(q) in level && q !in added' ensures NoLouder(loud, added', q) {
      if Parent(q) == p {
        assert IsChild(p, q) && (q in kids || q !in kids);
        var j :| 0 <= j < |kids| && kids[j] == q;
        assert j >= t;
      }
    }
  }

  lemma TakeKidsComplete(all: set<Path>, loud: map<Path, nat>, level: seq<Path>, k: nat, kids: seq<Path>,
                         added: seq<Path>)
    requires loud.Keys == all && k < |level|
    requires Complete(all, level[..k], added) && ChildList(all, loud, level[k], kids)
    ensures Complete(all, level[..k + 1], added + kids)
  {
    assert level[..k + 1] == level[..k] + [level[k]];
    forall q | q in all && q != [] && Parent(q) in level[..k + 1] ensures q in added + kids {
      if Parent(q) == level[k] {
        assert IsChild(level[k], q) && q in kids;
      } else {
        assert q in added;
      }
    }
  }

  /** What has been drawn: distinct nodes, level by level, none deeper than `depth`, each after its parent. */
  ghost predicate Drawn(all: set<Path>, drawn: seq<Path>, depth: nat) {
    NoRepeats(drawn)
    && (forall i, j :: 0 <= i < j < |drawn| ==> |drawn[i]| <= |drawn[j]|)
    && forall i :: 0 <= i < |drawn| ==>
      drawn[i] in all && 1 <= |drawn[i]| <= depth && (|drawn[i]| > 1 ==> Parent(drawn[i]) in drawn[..i])
  }

  /** Every node down to `depth` has been drawn. */
  ghost predicate DrawnTo(all: set<Path>, drawn: seq<Path>, depth: nat) {
    forall q {:trigger q in drawn} :: q in all && 1 <= |q| <= depth ==> q in drawn
  }

  /** What was left out: nothing deeper was drawn, and no drawn sibling is quieter. */
  ghost predicate FairlyOmitted(all: set<Path>, loud: map<Path, nat>, drawn: seq<Path>, maxDepth: nat)
    requires loud.Keys == all
  {
    forall q {:trigger NoLouder(loud, drawn, q)} :: q in all && 1 <= |q| <= maxDepth && q !in drawn ==>
      NoLouder(loud, drawn, q) && NoDeeper(drawn, |q|)
  }

  /** What was left out is outranked by everything drawn at its depth. */
  ghost predicate BusiestKept(all: set<Path>, loud: map<Path, nat>, drawn: seq<Path>, maxDepth: nat) {
    forall q, i {:trigger Outranks(loud, drawn[i], q)} ::
      0 <= i < |drawn| && q in all && q !in drawn && 1 <= |q| == |drawn[i]| <= maxDepth ==> Outranks(loud, drawn[i], q)
  }

  ghost predicate NoDeeper(drawn: seq<Path>, depth: nat) {
    forall i :: 0 <= i < |drawn| ==> |drawn[i]| <= depth
  }

  /** The level holds every node of its depth. */
  ghost predicate WholeLevel(all: set<Path>, level: seq<Path>, depth: nat) {
    LevelNodes(all, level, depth) && forall q {:trigger q in level} :: q in all && |q| == depth ==> q in level
  }

  lemma NextLevelDrawn(all: set<Path>, drawn: seq<Path>, level: seq<Path>, depth: nat, added: seq<Path>)
    requires depth >= 1 && Drawn(all, drawn, depth - 1)
    requires LevelNodes(all, level, depth - 1) && (depth > 1 ==> forall i :: 0 <= i < |level| ==> level[i] in drawn)
    requires ChildrenOf(all, level, added)
    ensures Drawn(all, drawn + added, depth) && LevelNodes(all, added, depth)
  {
    var all' := drawn + added;
    forall i | 0 <= i < |added| ensures |added[i]| == depth && (depth > 1 ==> Parent(added[i]) in drawn) {
      assert Parent(added[i]) in level;
    }
    forall i | 0 <= i < |all'|
      ensures all'[i] in all && 1 <= |all'[i]| <= depth && (|all'[i]| > 1 ==> Parent(all'[i]) in all'[..i])
    {
      if i < |drawn| {
        assert all'[..i] == drawn[..i];
      } else {
        assert all'[..i] == drawn + added[..i - |drawn|];
        assert all'[i] == added[i - |drawn|];
      }
    }
  }

  lemma NextLevelWhole(all: set<Path>, drawn: seq<Path>, level: seq<Path>, depth: nat, added: seq<Path>)
    requires PrefixClosed(all) && depth >= 1 && DrawnTo(all, drawn, depth - 1) && WholeLevel(all, level, depth - 1)
    requires ChildrenOf(all, level, added) && Complete(all, level, added)
    ensures DrawnTo(all, drawn + added, depth) && WholeLevel(all, added, depth)
  {
    forall i | 0 <= i < |added| ensures |added[i]| == depth { assert Parent(added[i]) in level; }
    forall q | q in all && |q| == depth ensures q in added { assert HasParent(all, q) && Parent(q) in level; }
  }

  lemma NextLevelFair(all: set<Path>, loud: map<Path, nat>, drawn: seq<Path>, level: seq<Path>, depth: nat,
                      added: seq<Path>,
                      maxDepth: nat)
    requires loud.Keys == all && PrefixClosed(all)
    requires depth >= 1 && Drawn(all, drawn, depth - 1) && DrawnTo(all, drawn, depth - 1)
    requires WholeLevel(all, level, depth - 1)
    requires ChildrenOf(all, level, added) && LoudestKept(all, loud, level, added)
    ensures FairlyOmitted(all, loud, drawn + added, maxDepth)
  {
    forall i | 0 <= i < |added| ensures |added[i]| == depth { assert Parent(added[i]) in level; }
    forall q | q in all && 1 <= |q| <= maxDepth && q !in drawn + added
      ensures NoLouder(loud, drawn + added, q) && NoDeeper(drawn + added, |q|)
    {
      assert |q| >= depth;
      if |q| == depth { assert HasParent(all, q) && Parent(q) in level && NoLouder(loud, added, q); }
    }
  }

  lemma NextLevelBusiest(all: set<Path>, loud: map<Path, nat>, drawn: seq<Path>, level: seq<Path>, depth: nat,
                         added: seq<Path>, maxDepth: nat)
    requires loud.Keys == all && PrefixClosed(all)
    requires depth >= 1 && Drawn(all, drawn, depth - 1) && DrawnTo(all, drawn, depth - 1)
    requires WholeLevel(all, level, depth - 1)
    requires ChildrenOf(all, level, added) && OutrankOmitted(all, loud, level, added)
    ensures BusiestKept(all, loud, drawn + added, maxDepth)
  {
    var s, n := drawn + added, |drawn|;
    forall i | 0 <= i < |added| ensures |added[i]| == depth { assert Parent(added[i]) in level; }
    forall q, i | 0 <= i < |s| && q in all && q !in s && 1 <= |q| == |s[i]| <= maxDepth
      ensures Outranks(loud, s[i], q)
    {
      assert q !in drawn && q !in added && |q| >= depth;
      assert HasParent(all, q) && Parent(q) in level;
      assert Outranks(loud, added[i - n], q);
    }
  }

  /** A level more, with its siblings in order, keeps all siblings in order: they are of one depth. */
  lemma NextLevelInOrder(all: set<Path>, loud: map<Path, nat>, drawn: seq<Path>, level: seq<Path>, depth: nat,
                         added: seq<Path>)
    requires depth >= 1 && Drawn(all, drawn, depth - 1) && LevelNodes(all, level, depth - 1)
    requires ChildrenOf(all, level, added)
    requires LoudestSiblingFirst(loud, drawn) && LoudestSiblingFirst(loud, added)
    ensures LoudestSiblingFirst(loud, drawn + added)
  {
    forall i | 0 <= i < |added| ensures |added[i]| == depth { assert Parent(added[i]) in level; }
    forall i, j | 0 <= i < |drawn| && 0 <= j < |added| && drawn[i] != [] ensures Parent(drawn[i]) != Parent(added[j]) {
      assert |Parent(drawn[i])| != |Parent(added[j])|;
    }
  }

  /** Where the drawing stands with `level` next to be expanded: what is drawn is well formed, and it
      is either complete above `depth` or fairly cut. */
  ghost predicate Progress(all: set<Path>, loud: map<Path, nat>, drawn: seq<Path>, level: seq<Path>, depth: nat,
                           deepest: nat, truncated: bool)
    requires loud.Keys == all
  {
    && 1 <= depth <= deepest + 1
    && Drawn(all, drawn, depth - 1)
    && LoudestSiblingFirst(loud, drawn)
    && LevelNodes(all, level, depth - 1) && Ranked(loud, level)
    && (depth > 1 ==> forall i :: 0 <= i < |level| ==> level[i] in drawn)
    && if truncated then FairlyOmitted(all, loud, drawn, deepest) && BusiestKept(all, loud, drawn, deepest)
       else DrawnTo(all, drawn, depth - 1) && (depth <= deepest ==> WholeLevel(all, level, depth - 1))
  }

  lemma ProgressStart(all: set<Path>, loud: map<Path, nat>, deepest: nat)
    requires loud.Keys == all && [] in all
    ensures Progress(all, loud, [], [[]], 1, deepest, false)
  {
    assert forall q: Path :: |q| == 0 ==> q == [];
  }

  /** One level more keeps the drawing in order. A picture cut before gains nothing. */
  lemma GraphStep(all: set<Path>, loud: map<Path, nat>, drawn: seq<Path>, level: seq<Path>, depth: nat,
                  added: seq<Path>,
                  deepest: nat, was: bool, cut: bool)
    requires loud.Keys == all && PrefixClosed(all) && depth <= deepest
    requires Progress(all, loud, drawn, level, depth, deepest, was)
    requires was ==> |added| == 0
    requires LevelDrawn(all, loud, level, added)
    requires !was && !cut ==> Complete(all, level, added)
    ensures Progress(all, loud, drawn + added, if depth < deepest then added else [], depth + 1, deepest, was || cut)
  {
    NextLevelDrawn(all, drawn, level, depth, added);
    NextLevelInOrder(all, loud, drawn, level, depth, added);
    if was {
      assert drawn + added == drawn;
    } else {
      NextLevelFair(all, loud, drawn, level, depth, added, deepest);
      NextLevelBusiest(all, loud, drawn, level, depth, added, deepest);
      if !cut { NextLevelWhole(all, drawn, level, depth, added); }
    }
  }

  /** Once a whole level is empty there is nothing as deep. */
  lemma {:induction false} NothingDeeper(all: set<Path>, level: seq<Path>, depth: nat, q: Path)
    requires PrefixClosed(all) && WholeLevel(all, level, depth) && level == [] && q in all
    ensures |q| < depth
    decreases |q|
  {
    if |q| > depth {
      assert HasParent(all, q);
      NothingDeeper(all, level, depth, Parent(q));
    } else if q in level {
    }
  }

  /** A picture that is complete to its depth unless it was cut. */
  lemma WholePicture(all: set<Path>, loud: map<Path, nat>, drawn: seq<Path>, level: seq<Path>, depth: nat, deepest: nat,
                     truncated: bool)
    requires loud.Keys == all && PrefixClosed(all)
    requires Progress(all, loud, drawn, level, depth, deepest, truncated)
    requires depth <= deepest ==> level == []
    ensures Drawn(all, drawn, deepest) && FairlyOmitted(all, loud, drawn, deepest) && LoudestSiblingFirst(loud, drawn)
    ensures BusiestKept(all, loud, drawn, deepest)
    ensures !truncated ==> DrawnTo(all, drawn, deepest)
  {
    if !truncated && depth <= deepest {
      forall q | q in all && 1 <= |q| <= deepest ensures q in drawn { NothingDeeper(all, level, depth - 1, q); }
    }
  }
}
