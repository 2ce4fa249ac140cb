/** The trie as a pointer structure: inserting updates nodes in place. */
module TrieObject {
  import opened Options
  import T = Trie

  class Node {
    var pattern: string
    var part: string
    var isWild: bool
    var children: seq<Node>

    // The nodes of this subtree, and the value they represent.
    ghost var Repr: set<Node>
    ghost var tree: T.Node

    ghost predicate Valid()
      reads this, Repr
      decreases Repr
    {
      && this in Repr
      && tree.pattern == pattern && tree.part == part && tree.isWild == isWild
      && |tree.children| == |children|
      && (forall i :: 0 <= i < |children| ==>
            children[i] in Repr && children[i].Repr < Repr && this !in children[i].Repr)
      && (forall i :: 0 <= i < |children| ==> children[i].Valid() && children[i].tree == tree.children[i])
      && (forall i, j :: 0 <= i < j < |children| ==> children[i].Repr !! children[j].Repr)
    }

    constructor (part: string, isWild: bool)
      ensures Valid() && fresh(Repr) && Repr == {this} && tree == T.Node("", part, isWild, [])
    {
      this.pattern, this.part, this.isWild, this.children := "", part, isWild, [];
      tree := T.Node("", part, isWild, []);
      Repr := {this};
    }

    /** What `Valid` says, for use where its definition is hidden. */
    lemma {:induction false} Facts()
      requires Valid()
      ensures this in Repr && tree.pattern == pattern && tree.part == part && tree.isWild == isWild && |tree.children| == |children|
      ensures forall i :: 0 <= i < |children| ==>
                children[i] in Repr && children[i].Repr < Repr && this !in children[i].Repr && children[i].Valid() && children[i].tree == tree.children[i]
      ensures forall i :: 0 <= i < |children| ==> children[i] in children[i].Repr
      ensures forall i, j :: 0 <= i < j < |children| ==> children[i].Repr !! children[j].Repr
      ensures forall i :: 0 <= i < |children| ==> children[i].part == tree.children[i].part && children[i].isWild == tree.children[i].isWild
    {
    }

    lemma {:induction false} Fold()
      requires this in Repr && tree.pattern == pattern && tree.part == part && tree.isWild == isWild && |tree.children| == |children|
      requires forall i :: 0 <= i < |children| ==> children[i] in Repr && children[i].Repr < Repr && this !in children[i].Repr
      requires forall i :: 0 <= i < |children| ==> children[i].Valid() && children[i].tree == tree.children[i]
      requires forall i, j :: 0 <= i < j < |children| ==> children[i].Repr !! children[j].Repr
      ensures Valid()
    {
    }

    method MatchChild(name: string) returns (i: nat)
      requires Valid()
      ensures i == T.ChildIndex(tree.children, name)
    {
      i := 0;
      while i < |children| && children[i].part != name
        invariant i <= |children|
        invariant T.ChildIndex(tree.children, name) == i + T.ChildIndex(tree.children[i..], name)
      {
        assert children[i].Valid();
        assert tree.children[i..][1..] == tree.children[i + 1..];
        i := i + 1;
      }
      if i < |children| {
        assert children[i].Valid();
      }
    }

    method Insert(pat: string, parts: seq<string>, height: nat)
      requires Valid() && height <= |parts|
      requires forall i :: 0 <= i < |parts| ==> parts[i] != ""
      modifies Repr
      ensures Valid() && fresh(Repr - old(Repr))
      ensures tree == T.Insert(old(tree), pat, parts, height)
      decreases |parts| - height, 1
    {
      if |parts| == height {
        pattern := pat;
        tree := tree.(pattern := pat);
        return;
      }
      var name := parts[height];
      var i := MatchChild(name);
      if i < |children| {
        InsertBelow(i, pat, parts, height);
      } else {
        InsertNew(name, pat, parts, height);
      }
    }

    /** The part of an insertion below the existing child number `i`. */
    method InsertBelow(i: nat, pat: string, parts: seq<string>, height: nat)
      requires Valid() && height < |parts| && i < |children|
      requires forall i :: 0 <= i < |parts| ==> parts[i] != ""
      modifies Repr
      ensures Valid() && fresh(Repr - old(Repr))
      ensures tree == old(tree).(children := old(tree).children[i := T.Insert(old(tree).children[i], pat, parts, height + 1)])
      decreases |parts| - height, 0
    {
      hide T.Insert, Valid;
      Facts();
      var child := children[i];
      forall j | 0 <= j < |children| && j != i ensures children[j].Repr !! child.Repr && this !in child.Repr {
        if j < i {
          assert children[j].Repr !! children[i].Repr;
        } else {
          assert children[i].Repr !! children[j].Repr;
        }
      }
      child.Insert(pat, parts, height + 1);
      assert this !in child.Repr;
      assert forall j :: 0 <= j < |children| && j != i ==> children[j].Valid() && children[j].Repr !! child.Repr;
      Repr := Repr + child.Repr;
      tree := tree.(children := tree.children[i := child.tree]);
      Fold();
    }

    /** The part of an insertion that needs a new child. */
    method InsertNew(name: string, pat: string, parts: seq<string>, height: nat)
      requires Valid() && height < |parts| && name == parts[height]
      requires forall i :: 0 <= i < |parts| ==> parts[i] != ""
      modifies Repr
      ensures Valid() && fresh(Repr - old(Repr))
      ensures tree == old(tree).(children := old(tree).children + [T.Insert(T.Node("", name, T.IsWild(name), []), pat, parts, height + 1)])
      decreases |parts| - height, 0
    {
      hide T.Insert;
      var child := new Node(name, name[0] == ':' || name[0] == '*');
      child.Insert(pat, parts, height + 1);
      assert fresh(child.Repr) && child.Repr !! Repr;
      assert Valid();
      Adopt(child);
    }

    method Adopt(child: Node)
      requires Valid() && child.Valid() && child.Repr !! Repr
      modifies this
      ensures Valid() && Repr == old(Repr) + child.Repr
      ensures tree == old(tree).(children := old(tree).children + [child.tree])
    {
      hide Valid;
      Facts();
      child.Facts();
      children := children + [child];
      Repr := Repr + child.Repr;
      tree := tree.(children := tree.children + [child.tree]);
      Fold();
    }

    /** The children a search tries: those with exactly this part, then the wildcards. */
    method MatchChildren(name: string) returns (nodes: seq<Node>)
      requires Valid()
      ensures |nodes| == |T.MatchChildren(tree, name)|
      ensures forall i :: 0 <= i < |nodes| ==> nodes[i] in Repr && nodes[i].Repr < Repr && nodes[i].Valid() && nodes[i].tree == T.MatchChildren(tree, name)[i]
    {
      hide Valid;
      Facts();
      var exact: seq<Node> := [];
      ghost var ts := tree.children;
      for i := 0 to |children|
        invariant |exact| == |T.Exact(ts[..i], name)|
        invariant forall j :: 0 <= j < |exact| ==> exact[j] in Repr && exact[j].Repr < Repr && exact[j].Valid() && exact[j].tree == T.Exact(ts[..i], name)[j]
      {
        T.ExactStep(ts, i, name);
        if children[i].part == name {
          exact := exact + [children[i]];
        }
      }
      var wild: seq<Node> := [];
      for i := 0 to |children|
        invariant |wild| == |T.Wildcards(ts[..i], name)|
        invariant forall j :: 0 <= j < |wild| ==> wild[j] in Repr && wild[j].Repr < Repr && wild[j].Valid() && wild[j].tree == T.Wildcards(ts[..i], name)[j]
      {
        T.WildcardsStep(ts, i, name);
        if children[i].part != name && children[i].isWild {
          wild := wild + [children[i]];
        }
      }
      assert ts[..|children|] == ts;
      nodes := exact + wild;
    }

    /** The first node found for the segments, depth first, or null. */
    method Search(segs: seq<string>, height: nat) returns (found: Node?)
      requires Valid() && height <= |segs|
      ensures match T.Search(tree, segs, height)
              case None => found == null
              case Some(n) => found != null && found in Repr && found.Valid() && found.tree == n
      decreases |segs| - height
    {
      hide Valid, T.MatchChildren;
      Facts();
      if |segs| == height || (part != "" && part[0] == '*') {
        if pattern == "" {
          return null;
        }
        return this;
      }
      var nodes := MatchChildren(segs[height]);
      ghost var ts := T.MatchChildren(tree, segs[height]);
      for i := 0 to |nodes|
        invariant T.SearchAny(ts, segs, height + 1) == T.SearchAny(ts[i..], segs, height + 1)
      {
        assert ts[i..][1..] == ts[i + 1..];
        var result := nodes[i].Search(segs, height + 1);
        if result != null {
          return result;
        }
      }
      return null;
    }
  }
}
