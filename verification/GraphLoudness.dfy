/** Which branches a namespace picture (internal/mqttc/tree.go) keeps when the budget runs out. */
module GraphLoudness {
  import opened Collections
  import opened GraphFlags
  import opened Levels
  import opened MessageLog
  import opened Picture
  import opened TopicTree

  /** What a cut picture keeps: of two nodes of one depth, one drawn and one left out, there is exactly one
      level at which their paths part, and there the drawn one's branch has received at least as many
      messages. For siblings that level is their own. */
  lemma BranchesKept(t: Tree, out: seq<GraphNode>, truncated: bool, maxDepth: nat, budget: nat, i: nat, q: Path)
    returns (k: nat)
    requires t.Valid() && t.GraphAnswer(out, truncated, maxDepth, budget) && i < |out|
    requires q in t.nodes && q !in Tree.DrawnPaths(out) && |q| == |Tree.DrawnPaths(out)[i]|
    ensures var r := Tree.DrawnPaths(out)[i];
      && k < |q| && r[..k] == q[..k] && r[k] != q[k]
      && |Under(t.log, r[..k + 1])| >= |Under(t.log, q[..k + 1])|
      && (Parent(r) == Parent(q) ==> k == |q| - 1)
  {
    var drawn, loud := Tree.DrawnPaths(out), t.Loudness();
    var r := drawn[i];
    assert Outranks(loud, r, q);
    k :| PartsAt(loud, r, q, k);
    LoudnessIs(t, r[..k + 1]);
    LoudnessIs(t, q[..k + 1]);
    assert forall c :: 0 <= c < |q| - 1 ==> r[c] == Parent(r)[c] && q[c] == Parent(q)[c];
  }

  lemma LoudnessIs(t: Tree, p: Path)
    requires t.Valid() && p in t.nodes
    ensures t.Loudness()[p] == |Under(t.log, p)|
  {
    assert Counted(t.log, p, t.Stats()[p]);
  }

  // A louder node that is left out for a quieter one.

  const Branches := [At("a"), At("a"), At("a/1"), At("b/1"), At("b/1")]

  const A: Path := ["a"]
  const A1: Path := ["a", "1"]
  const B: Path := ["b"]
  const B1: Path := ["b", "1"]

  /** Two branches: "a" has three messages and one child with one of them; "b" has two, both below its child. With
      room for three nodes the picture shows the child with one message and leaves out that with two. */
  method QuieterKept() returns (t: Tree, out: seq<GraphNode>, truncated: bool)
    ensures t.Valid() && t.GraphAnswer(out, truncated, 2, 3)
    ensures A1 in Tree.DrawnPaths(out) && B1 !in Tree.DrawnPaths(out) && B1 in t.nodes
    ensures |Under(t.log, A1)| == 1 && |Under(t.log, B1)| == 2
  {
    t, out, truncated := PictureOf(Branches, 2, 3);
    BranchPaths();
    BranchNodes(t.nodes.Keys, t.log);
    BranchLoudness(t);
    QuieterDrawn(t.nodes.Keys, t.Loudness(), Tree.DrawnPaths(out), truncated);
  }

  lemma BranchPaths()
    ensures PathOf("a") == A && PathOf("a/1") == A1 && PathOf("b/1") == B1
  {
    SplitPart("a", "", '/');
    SplitPart("b", "", '/');
    SplitPart("1", "", '/');
    SplitAppend("a", "1", '/');
    SplitAppend("b", "1", '/');
    assert "a/1" == "a" + ['/'] + "1" && "b/1" == "b" + ['/'] + "1";
  }

  predicate InBranches(q: Path) {
    q == A || q == A1 || q == B || q == B1
  }

  lemma BranchNodes(all: set<Path>, log: seq<Message>)
    requires NodesOf(log, all) && |log| == 5
    requires PathOf(log[0].topic) == PathOf(log[1].topic) == A && PathOf(log[2].topic) == A1
    requires PathOf(log[3].topic) == PathOf(log[4].topic) == B1
    ensures A in all && A1 in all && B in all && B1 in all
    ensures forall q :: q in all && |q| >= 1 ==> InBranches(q)
  {
    assert Within(A, PathOf(log[2].topic)) && Within(A1, PathOf(log[2].topic));
    assert Within(B, PathOf(log[3].topic)) && Within(B1, PathOf(log[3].topic));
    assert IsNode(log, A) && IsNode(log, A1) && IsNode(log, B) && IsNode(log, B1);
    forall q | q in all && |q| >= 1 ensures InBranches(q) {
      assert IsNode(log, q);
      var i :| 0 <= i < |log| && Within(q, PathOf(log[i].topic));
      OnBranch(q, PathOf(log[i].topic));
    }
  }

  lemma OnBranch(q: Path, p: Path)
    requires Within(q, p) && |q| >= 1 && (p == A || p == A1 || p == B1)
    ensures InBranches(q)
  {
    assert q == p[..1] || q == p[..2];
  }

  function Hit(m: Message, p: Path): nat {
    if |p| <= |PathOf(m.topic)| && PathOf(m.topic)[..|p|] == p then 1 else 0
  }

  lemma {:induction false} UnderSnoc(log: seq<Message>, m: Message, p: Path)
    ensures |Under(log + [m], p)| == |Under(log, p)| + Hit(m, p)
  {
    UnderAppend(log, m, p);
  }

  lemma {:induction false} UnderFive(a: Message, b: Message, c: Message, d: Message, e: Message, p: Path)
    ensures |Under([a, b, c, d, e], p)| == Hit(a, p) + Hit(b, p) + Hit(c, p) + Hit(d, p) + Hit(e, p)
  {
    var none: seq<Message> := [];
    UnderSnoc(none, a, p);
    UnderSnoc(none + [a], b, p);
    UnderSnoc(none + [a] + [b], c, p);
    UnderSnoc(none + [a] + [b] + [c], d, p);
    UnderSnoc(none + [a] + [b] + [c] + [d], e, p);
    assert none + [a] + [b] + [c] + [d] + [e] == [a, b, c, d, e];
  }

  lemma BranchLoudness(t: Tree)
    requires t.Valid() && t.log == Branches && A in t.nodes && A1 in t.nodes && B in t.nodes && B1 in t.nodes
    ensures t.Loudness()[A] == 3 && t.Loudness()[B] == 2
    ensures |Under(t.log, A1)| == 1 && |Under(t.log, B1)| == 2
  {
    BranchCounts();
    LoudnessIs(t, A);
    LoudnessIs(t, B);
  }

  lemma BranchCounts()
    ensures |Under(Branches, A)| == 3 && |Under(Branches, B)| == 2
    ensures |Under(Branches, A1)| == 1 && |Under(Branches, B1)| == 2
  {
    BranchPaths();
    var a, c, d := At("a"), At("a/1"), At("b/1");
    UnderFive(a, a, c, d, d, A);
    UnderFive(a, a, c, d, d, B);
    UnderFive(a, a, c, d, d, A1);
    UnderFive(a, a, c, d, d, B1);
  }

  lemma QuieterDrawn(all: set<Path>, loud: map<Path, nat>, drawn: seq<Path>, truncated: bool)
    requires A in all && A1 in all && B in all && B1 in all && loud.Keys == all
    requires forall q :: q in all && |q| >= 1 ==> InBranches(q)
    requires Drawn(all, drawn, 2) && |drawn| <= 3 && (truncated <==> |drawn| == 3)
    requires !truncated ==> DrawnTo(all, drawn, 2)
    requires FairlyOmitted(all, loud, drawn, 2) && BusiestKept(all, loud, drawn, 2)
    requires loud[A] == 3 && loud[B] == 2
    ensures A1 in drawn && B1 !in drawn
  {
    ThreeDrawn(all, drawn, truncated);
    FirstLevelIn(all, loud, drawn, A);
    FirstLevelIn(all, loud, drawn, B);
    ASecondIn(drawn);
    BDoesNotOutrank(loud);
    if B1 in drawn { KeptOutranks(all, loud, drawn, B1, A1); }
  }

  lemma ThreeDrawn(all: set<Path>, drawn: seq<Path>, truncated: bool)
    requires A in all && A1 in all && B in all && B1 in all
    requires forall q :: q in all && |q| >= 1 ==> InBranches(q)
    requires Drawn(all, drawn, 2) && |drawn| <= 3 && (truncated <==> |drawn| == 3)
    requires !truncated ==> DrawnTo(all, drawn, 2)
    ensures |drawn| == 3 && !(A1 in drawn && B1 in drawn && A in drawn && B in drawn)
    ensures forall q :: q in drawn ==> InBranches(q)
  {
    FourPaths();
    NotAllDrawn({A, A1, B, B1}, drawn);
    assert DrawnTo(all, drawn, 2) ==> A in drawn && A1 in drawn && B in drawn && B1 in drawn;
  }

  lemma FourPaths()
    ensures |{A, A1, B, B1}| == 4
  {
    assert A[0] != B[0] && A1[0] != B1[0];
  }

  lemma NotAllDrawn<T>(four: set<T>, drawn: seq<T>)
    requires NoRepeats(drawn) && |drawn| < |four|
    ensures exists x :: x in four && x !in drawn
  {
    MembersSize(drawn);
    if four <= Members(drawn) { SubsetSize(four, Members(drawn)); }
    var x :| x in four && x !in Members(drawn);
    assert x !in drawn;
  }

  /** Three drawn nodes do not all stand in the first level. */
  lemma FirstLevelIn(all: set<Path>, loud: map<Path, nat>, drawn: seq<Path>, x: Path)
    requires Drawn(all, drawn, 2) && |drawn| == 3 && x in all && |x| == 1 && loud.Keys == all
    requires forall q :: q in all && |q| >= 1 ==> InBranches(q)
    requires FairlyOmitted(all, loud, drawn, 2)
    ensures x in drawn
  {
    if x !in drawn {
      assert NoLouder(loud, drawn, x);
      forall q | q in Members(drawn) ensures q in {A, B} {
        var i :| 0 <= i < |drawn| && drawn[i] == q;
      }
      MembersSize(drawn);
      SubsetSize(Members(drawn), {A, B});
    }
  }

  lemma ASecondIn(drawn: seq<Path>)
    requires NoRepeats(drawn) && |drawn| == 3 && forall q :: q in drawn ==> InBranches(q)
    ensures A1 in drawn || B1 in drawn
  {
    MembersSize(drawn);
    if A1 !in drawn && B1 !in drawn { SubsetSize(Members(drawn), {A, B}); }
  }

  lemma KeptOutranks(all: set<Path>, loud: map<Path, nat>, drawn: seq<Path>, r: Path, q: Path)
    requires BusiestKept(all, loud, drawn, 2) && r in drawn && q in all && |r| == |q| == 2
    ensures q in drawn || Outranks(loud, r, q)
  {
    var i :| 0 <= i < |drawn| && drawn[i] == r;
    assert q !in drawn ==> Outranks(loud, drawn[i], q);
  }

  lemma BDoesNotOutrank(loud: map<Path, nat>)
    requires A in loud && B in loud && loud[A] > loud[B]
    ensures !Outranks(loud, B1, A1)
  {
    forall k: nat ensures !PartsAt(loud, B1, A1, k) {
      assert B1[..1] == B && A1[..1] == A;
    }
  }
}
