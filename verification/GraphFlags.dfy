/** When the flags of a namespace picture (internal/mqttc/tree.go) tell the truth. */
module GraphFlags {
  import opened Collections
  import opened Levels
  import opened MessageLog
  import opened Picture
  import opened TopicTree

  /** The nodes a picture down to a depth could show. */
  ghost function Drawable(t: Tree, maxDepth: nat): set<Path>
    reads t
  {
    set q | q in t.nodes && 1 <= |q| <= maxDepth
  }

  ghost function Members<T>(s: seq<T>): set<T> {
    set x | x in s
  }

  lemma {:induction false} MembersSize<T>(s: seq<T>)
    requires NoRepeats(s)
    ensures |Members(s)| == |s|
  {
    if s != [] {
      var front, last := s[..|s| - 1], s[|s| - 1];
      MembersSize(front);
      assert s == front + [last] && last !in front;
      assert Members(s) == Members(front) + {last};
    }
  }

  lemma {:induction false} SubsetSize<T>(a: set<T>, b: set<T>)
    requires a <= b
    ensures |a| <= |b| && (|a| == |b| <==> a == b)
  {
    assert b == a + (b - a);
    assert |b| == |a| + |b - a|;
  }

  ghost predicate LeavesOut(t: Tree, out: seq<GraphNode>, maxDepth: nat)
    reads t
  {
    exists q :: q in t.nodes && 1 <= |q| <= maxDepth && q !in Tree.DrawnPaths(out)
  }

  /** The flag of a picture is right about something being left out exactly when the nodes there are to draw
      do not number exactly the budget. */
  lemma FlagIsTrue(t: Tree, out: seq<GraphNode>, truncated: bool, maxDepth: nat, budget: nat)
    requires t.Valid() && t.GraphAnswer(out, truncated, maxDepth, budget)
    ensures (truncated <==> LeavesOut(t, out, maxDepth)) <==> |Drawable(t, maxDepth)| != budget
  {
    var drawn, all := Tree.DrawnPaths(out), Drawable(t, maxDepth);
    forall q | q in Members(drawn) ensures q in all {
      var i :| 0 <= i < |drawn| && drawn[i] == q;
    }
    if LeavesOut(t, out, maxDepth) {
      var q :| q in t.nodes && 1 <= |q| <= maxDepth && q !in drawn;
      assert q in all && q !in Members(drawn);
    }
    forall q | q in all && q !in Members(drawn) ensures LeavesOut(t, out, maxDepth) { assert q !in drawn; }
    FullOrCut(all, drawn, truncated, budget);
  }

  lemma FullOrCut<T>(all: set<T>, drawn: seq<T>, truncated: bool, budget: nat)
    requires NoRepeats(drawn) && Members(drawn) <= all && |drawn| <= budget
    requires (truncated <==> |drawn| == budget) && (!truncated ==> all <= Members(drawn))
    ensures (truncated <==> !(all <= Members(drawn))) <==> |all| != budget
  {
    MembersSize(drawn);
    SubsetSize(Members(drawn), all);
  }

  /** The children of a node, by their last level, that are in the picture. */
  ghost function DrawnChildren(t: Tree, out: seq<GraphNode>, p: Path): set<string>
    requires p in t.nodes
    reads t, t.nodes[p]
  {
    set l | l in t.nodes[p].children && p + [l] in Tree.DrawnPaths(out)
  }

  ghost predicate LeavesOutChild(t: Tree, out: seq<GraphNode>, p: Path)
    reads t
  {
    exists l :: p + [l] in t.nodes && p + [l] !in Tree.DrawnPaths(out)
  }

  /** A node's own flag is right about its children being left out exactly when the node is at the depth limit
      or as many of its children are in the picture as it says it has: away from the limit it is never
      set, even where the budget cut the children. In a picture that is not cut all flags are right. */
  lemma NodeFlagIsTrue(t: Tree, out: seq<GraphNode>, truncated: bool, maxDepth: nat, budget: nat, i: nat)
    requires t.Valid() && t.GraphAnswer(out, truncated, maxDepth, budget) && i < |out|
    ensures var p := Tree.DrawnPaths(out)[i];
      && p in t.nodes
      && ((out[i].truncated <==> LeavesOutChild(t, out, p)) <==>
            out[i].depth == maxDepth || |DrawnChildren(t, out, p)| == out[i].children)
      && (!truncated ==> (out[i].truncated <==> LeavesOutChild(t, out, p)))
  {
    var drawn := Tree.DrawnPaths(out);
    var p := drawn[i];
    assert p in t.nodes && t.Shows(out[i], p, maxDepth);
    AllChildrenDrawn(t, out, p);
    if |p| == maxDepth {
      forall l ensures p + [l] !in drawn { assert |p + [l]| > maxDepth; }
    } else {
      forall l | !truncated && p + [l] in t.nodes ensures p + [l] in drawn { assert 1 <= |p + [l]| <= maxDepth; }
    }
  }

  lemma AllChildrenDrawn(t: Tree, out: seq<GraphNode>, p: Path)
    requires t.Valid() && p in t.nodes
    ensures |DrawnChildren(t, out, p)| == |t.nodes[p].children| <==> !LeavesOutChild(t, out, p)
  {
    var kids, drawn := t.nodes[p].children.Keys, DrawnChildren(t, out, p);
    SubsetSize(drawn, kids);
    forall l ensures p + [l] in t.nodes <==> l in kids { ChildLinked(t.nodes, t.Links(), p, l); }
    if drawn != kids {
      var l :| l in kids && l !in drawn;
      assert p + [l] in t.nodes && p + [l] !in Tree.DrawnPaths(out);
    }
  }

  /** Every drawn node's own flag is right about its children being left out. */
  ghost predicate AllRight(t: Tree, out: seq<GraphNode>)
    reads t
  {
    forall i :: 0 <= i < |out| ==> (out[i].truncated <==> LeavesOutChild(t, out, Tree.DrawnPaths(out)[i]))
  }

  /** The flags of the nodes are all right exactly when the nodes there are to draw fit the budget, as long as
      those of the first level do; when even those do not, exactly when the depth limit is the first level or
      every node drawn is a leaf. */
  lemma NodeFlagsAreTrue(t: Tree, out: seq<GraphNode>, truncated: bool, maxDepth: nat, budget: nat)
    requires t.Valid() && t.GraphAnswer(out, truncated, maxDepth, budget) && maxDepth >= 1
    ensures |Drawable(t, 1)| <= budget ==> (AllRight(t, out) <==> |Drawable(t, maxDepth)| <= budget)
    ensures |Drawable(t, 1)| > budget ==>
      (AllRight(t, out) <==> maxDepth == 1 || forall i :: 0 <= i < |out| ==> out[i].children == 0)
  {
    if |Drawable(t, 1)| > budget {
      OnlyFirstLevel(t, out, truncated, maxDepth, budget);
      FirstLevelFlags(t, out, truncated, maxDepth, budget);
    } else if |Drawable(t, maxDepth)| <= budget {
      NothingLeftOut(t, out, truncated, maxDepth, budget);
      forall i | 0 <= i < |out| ensures out[i].truncated <==> LeavesOutChild(t, out, Tree.DrawnPaths(out)[i]) {
        RightAt(t, out, truncated, maxDepth, budget, i);
      }
    } else {
      var q := SomethingLeftOut(t, out, truncated, maxDepth, budget);
      FirstLevelDrawn(t, out, truncated, maxDepth, budget);
      var i := CutParent(t, out, truncated, maxDepth, budget, q);
      RightAt(t, out, truncated, maxDepth, budget, i);
    }
  }

  /** A flag is right at the depth limit, and elsewhere when no child is left out. */
  lemma RightAt(t: Tree, out: seq<GraphNode>, truncated: bool, maxDepth: nat, budget: nat, i: nat)
    requires t.Valid() && t.GraphAnswer(out, truncated, maxDepth, budget) && i < |out|
    ensures var p := Tree.DrawnPaths(out)[i];
      p in t.nodes && 1 <= |p| <= maxDepth &&
      ((out[i].truncated <==> LeavesOutChild(t, out, p)) <==> |p| == maxDepth || !LeavesOutChild(t, out, p))
  {
    NodeFlagIsTrue(t, out, truncated, maxDepth, budget, i);
    var p := Tree.DrawnPaths(out)[i];
    assert t.Shows(out[i], p, maxDepth);
    AllChildrenDrawn(t, out, p);
  }

  lemma DrawnAreDrawable(t: Tree, out: seq<GraphNode>, truncated: bool, maxDepth: nat, budget: nat)
    requires t.Valid() && t.GraphAnswer(out, truncated, maxDepth, budget)
    ensures Members(Tree.DrawnPaths(out)) <= Drawable(t, maxDepth)
    ensures |Members(Tree.DrawnPaths(out))| == |out| <= |Drawable(t, maxDepth)|
  {
    var drawn := Tree.DrawnPaths(out);
    MembersSize(drawn);
    forall q | q in Members(drawn) ensures q in Drawable(t, maxDepth) {
      var i :| 0 <= i < |drawn| && drawn[i] == q;
    }
    SubsetSize(Members(drawn), Drawable(t, maxDepth));
  }

  lemma NothingLeftOut(t: Tree, out: seq<GraphNode>, truncated: bool, maxDepth: nat, budget: nat)
    requires t.Valid() && t.GraphAnswer(out, truncated, maxDepth, budget)
    requires |Drawable(t, maxDepth)| <= budget
    ensures forall i :: 0 <= i < |out| ==>
      var p := Tree.DrawnPaths(out)[i]; |p| == maxDepth || !LeavesOutChild(t, out, p)
  {
    var drawn := Tree.DrawnPaths(out);
    DrawnAreDrawable(t, out, truncated, maxDepth, budget);
    SubsetSize(Members(drawn), Drawable(t, maxDepth));
    forall q | q in t.nodes && 1 <= |q| <= maxDepth ensures q in drawn {
      if truncated { assert q in Drawable(t, maxDepth) && q in Members(drawn); }
    }
    forall i, l | 0 <= i < |out| && |drawn[i]| < maxDepth && drawn[i] + [l] in t.nodes ensures drawn[i] + [l] in drawn {
      assert 1 <= |drawn[i] + [l]| <= maxDepth;
    }
  }

  lemma SomethingLeftOut(t: Tree, out: seq<GraphNode>, truncated: bool, maxDepth: nat, budget: nat)
    returns (q: Path)
    requires t.Valid() && t.GraphAnswer(out, truncated, maxDepth, budget)
    requires |Drawable(t, maxDepth)| > budget
    ensures q in t.nodes && 1 <= |q| <= maxDepth && q !in Tree.DrawnPaths(out)
  {
    var all, members := Drawable(t, maxDepth), Members(Tree.DrawnPaths(out));
    DrawnAreDrawable(t, out, truncated, maxDepth, budget);
    SubsetSize(members, all);
    q :| q in all && q !in members;
  }

  /** A first level that fits the budget is never cut. */
  lemma FirstLevelDrawn(t: Tree, out: seq<GraphNode>, truncated: bool, maxDepth: nat, budget: nat)
    requires t.Valid() && t.GraphAnswer(out, truncated, maxDepth, budget) && maxDepth >= 1
    requires |Drawable(t, 1)| <= budget
    ensures forall q :: q in t.nodes && |q| == 1 ==> q in Tree.DrawnPaths(out)
  {
    var drawn, first := Tree.DrawnPaths(out), Drawable(t, 1);
    forall q | q in t.nodes && |q| == 1 ensures q in drawn {
      if q !in drawn {
        assert q in first && q !in Members(drawn);
        MembersSize(drawn);
        CutAtFirst(t, out, truncated, maxDepth, budget, q);
        SubsetSize(Members(drawn), first);
      }
    }
  }

  /** Once a node of the first level is left out, only nodes of that level are drawn, and the budget is used up. */
  lemma CutAtFirst(t: Tree, out: seq<GraphNode>, truncated: bool, maxDepth: nat, budget: nat, q: Path)
    requires t.Valid() && t.GraphAnswer(out, truncated, maxDepth, budget) && maxDepth >= 1
    requires q in t.nodes && |q| == 1 && q !in Tree.DrawnPaths(out)
    ensures |out| == budget && Members(Tree.DrawnPaths(out)) <= Drawable(t, 1)
    ensures forall i :: 0 <= i < |out| ==> |Tree.DrawnPaths(out)[i]| == 1
  {
    var drawn := Tree.DrawnPaths(out);
    assert NoLouder(t.Loudness(), drawn, q);
    assert NoDeeper(drawn, |q|);
    forall i | 0 <= i < |drawn| ensures |drawn[i]| == 1 && drawn[i] in t.nodes {}
  }

  lemma OnlyFirstLevel(t: Tree, out: seq<GraphNode>, truncated: bool, maxDepth: nat, budget: nat)
    requires t.Valid() && t.GraphAnswer(out, truncated, maxDepth, budget) && maxDepth >= 1
    requires |Drawable(t, 1)| > budget
    ensures forall i :: 0 <= i < |out| ==> |Tree.DrawnPaths(out)[i]| == 1
  {
    var drawn, first := Tree.DrawnPaths(out), Drawable(t, 1);
    MembersSize(drawn);
    if first <= Members(drawn) {
      SubsetSize(first, Members(drawn));
    } else {
      var q :| q in first && q !in Members(drawn);
      CutAtFirst(t, out, truncated, maxDepth, budget, q);
    }
  }

  lemma FirstLevelFlags(t: Tree, out: seq<GraphNode>, truncated: bool, maxDepth: nat, budget: nat)
    requires t.Valid() && t.GraphAnswer(out, truncated, maxDepth, budget) && maxDepth >= 1
    requires forall i :: 0 <= i < |out| ==> |Tree.DrawnPaths(out)[i]| == 1
    ensures AllRight(t, out) <==> maxDepth == 1 || forall i :: 0 <= i < |out| ==> out[i].children == 0
  {
    var drawn := Tree.DrawnPaths(out);
    forall i | 0 <= i < |out|
      ensures (out[i].truncated <==> LeavesOutChild(t, out, drawn[i])) <==> maxDepth == 1 || out[i].children == 0
    {
      RightAt(t, out, truncated, maxDepth, budget, i);
      assert t.Shows(out[i], drawn[i], maxDepth);
      AllChildrenDrawn(t, out, drawn[i]);
      forall l ensures drawn[i] + [l] !in drawn { assert |drawn[i] + [l]| == 2; }
      assert DrawnChildren(t, out, drawn[i]) == {};
    }
  }

  /** The last drawn node on the way to one left out is short of the depth limit and lacks a child. */
  lemma CutParent(t: Tree, out: seq<GraphNode>, truncated: bool, maxDepth: nat, budget: nat, q: Path) returns (i: nat)
    requires t.Valid() && t.GraphAnswer(out, truncated, maxDepth, budget)
    requires q in t.nodes && 1 <= |q| <= maxDepth && q !in Tree.DrawnPaths(out)
    requires forall p :: p in t.nodes && |p| == 1 ==> p in Tree.DrawnPaths(out)
    ensures i < |out|
    ensures var p := Tree.DrawnPaths(out)[i]; |p| < maxDepth && LeavesOutChild(t, out, p)
  {
    var drawn := Tree.DrawnPaths(out);
    t.AllPrefixClosed();
    var p, l := CutPrefix(t.nodes.Keys, drawn, q);
    i :| 0 <= i < |drawn| && drawn[i] == p;
  }

  lemma {:induction false} CutPrefix(all: set<Path>, drawn: seq<Path>, q: Path) returns (p: Path, l: string)
    requires PrefixClosed(all) && q in all && q != [] && q !in drawn
    requires forall r :: r in all && |r| == 1 ==> r in drawn
    ensures p in drawn && |p| < |q| && p + [l] in all && p + [l] !in drawn
    decreases |q|
  {
    p, l := Parent(q), q[|q| - 1];
    assert q == p + [l] && HasParent(all, q);
    if p !in drawn {
      p, l := CutPrefix(all, drawn, p);
    }
  }

  /** The nodes are a path and its prefixes. */
  ghost predicate OnePath(all: set<Path>, p: Path) {
    forall q {:trigger Within(q, p)} :: q in all <==> Within(q, p)
  }

  /** A tree that has received some messages, few enough not to fill it. */
  method TreeOf(ms: seq<Message>) returns (t: Tree)
    requires |ms| <= MAX_TOPICS
    ensures t.Valid() && t.log == ms && fresh(t) && fresh(t.nodes.Values)
  {
    if |ms| == 0 {
      t := new Tree();
    } else {
      var front := ms[..|ms| - 1];
      FewTopics(front);
      LastOn(ms);
      t := TreeOf(front);
      t.Record(ms[|ms| - 1]);
    }
  }

  lemma LastOn<T>(s: seq<T>)
    requires |s| > 0
    ensures s[..|s| - 1] + [s[|s| - 1]] == s
  {
  }

  /** The picture of such a tree. */
  method PictureOf(ms: seq<Message>, maxDepth: int, maxNodes: int)
    returns (t: Tree, out: seq<GraphNode>, truncated: bool)
    requires |ms| <= MAX_TOPICS && maxDepth > 0 && maxNodes > 0
    ensures t.Valid() && t.log == ms && t.GraphAnswer(out, truncated, maxDepth, maxNodes)
  {
    t := TreeOf(ms);
    var newest;
    out, newest, truncated := t.Graph(maxDepth, maxNodes);
  }

  lemma {:induction false} FewTopics(log: seq<Message>)
    ensures |LastValues(log)| <= |log|
  {
    if log != [] {
      var front, m := log[..|log| - 1], log[|log| - 1];
      FewTopics(front);
      assert log == front + [m];
      LastValuesAppend(front, m);
      assert LastValues(log).Keys == LastValues(front).Keys + {m.topic};
    }
  }

  /** The picture of a tree that has received one message. */
  method PictureOfOne(topic: string, maxDepth: int) returns (t: Tree, out: seq<GraphNode>, truncated: bool)
    requires maxDepth > 0
    ensures t.Valid() && OnePath(t.nodes.Keys, PathOf(topic)) && t.GraphAnswer(out, truncated, maxDepth, 1)
  {
    t, out, truncated := PictureOf([At(topic)], maxDepth, 1);
    PrefixNodes(t.log, t.nodes.Keys);
  }

  lemma PrefixNodes(log: seq<Message>, all: set<Path>)
    requires |log| == 1 && NodesOf(log, all)
    ensures OnePath(all, PathOf(log[0].topic))
  {
    forall q ensures q in all <==> Within(q, PathOf(log[0].topic)) {
      assert q in all <==> IsNode(log, q);
      assert Within(q, PathOf(log[0].topic)) ==> IsNode(log, q);
    }
  }

  /** A tree whose only node fills the budget: the picture is complete, and flagged as cut. */
  method FullNotCut() returns (t: Tree, out: seq<GraphNode>, truncated: bool)
    ensures t.Valid() && t.GraphAnswer(out, truncated, 1, 1)
    ensures truncated && !LeavesOut(t, out, 1)
  {
    SplitPart("a", "", '/');
    t, out, truncated := PictureOfOne("a", 1);
    OneNodeDrawn(t.nodes.Keys, Tree.DrawnPaths(out), truncated);
  }

  lemma OneNodeDrawn(all: set<Path>, drawn: seq<Path>, truncated: bool)
    requires OnePath(all, ["a"]) && Drawn(all, drawn, 1) && |drawn| <= 1
    requires (truncated <==> |drawn| == 1) && (!truncated ==> DrawnTo(all, drawn, 1))
    ensures truncated && forall q :: q in all && |q| == 1 ==> q in drawn
  {
    assert Within(["a"], ["a"]);
    assert !truncated ==> ["a"] in drawn;
    assert drawn[0] in all && Within(drawn[0], ["a"]);
    forall q | q in all && |q| == 1 ensures q in drawn { assert Within(q, ["a"]); }
  }

  /** A branch whose only child the budget cuts: its own flag is not set. */
  method CutNotFlagged() returns (t: Tree, out: seq<GraphNode>, truncated: bool)
    ensures t.Valid() && t.GraphAnswer(out, truncated, 2, 1) && |out| == 1
    ensures !out[0].truncated && LeavesOutChild(t, out, Tree.DrawnPaths(out)[0])
  {
    TwoLevels();
    t, out, truncated := PictureOfOne("a/b", 2);
    ghost var drawn := Tree.DrawnPaths(out);
    ParentOnly(t.nodes.Keys, drawn, truncated);
    assert drawn[0] in t.nodes && t.Shows(out[0], drawn[0], 2);
    assert drawn[0] + ["b"] in t.nodes && drawn[0] + ["b"] !in drawn;
  }

  lemma TwoLevels()
    ensures PathOf("a/b") == ["a", "b"]
  {
    SplitAppend("a", "b", '/');
    SplitPart("a", "", '/');
    SplitPart("b", "", '/');
    assert "a/b" == "a" + ['/'] + "b";
  }

  lemma ParentOnly(all: set<Path>, drawn: seq<Path>, truncated: bool)
    requires OnePath(all, ["a", "b"]) && Drawn(all, drawn, 2) && |drawn| <= 1
    requires (truncated <==> |drawn| == 1) && (!truncated ==> DrawnTo(all, drawn, 2))
    ensures drawn == [["a"]] && ["a"] + ["b"] in all
  {
    var a, ab := ["a"], ["a", "b"];
    assert Within(a, ab) && Within(ab, ab) && a + ["b"] == ab;
    assert !truncated ==> a in drawn && ab in drawn;
    assert drawn[0] in all && Within(drawn[0], ab);
  }
}
