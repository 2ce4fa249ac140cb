/** The route trie, and what it stands for: the list of registered patterns, each a list of parts. */
module Trie {
  import opened Options

  type Parts = seq<string>

  /** A trie node; an empty pattern means that no registered pattern ends here. */
  datatype Node = Node(pattern: string, part: string, isWild: bool, children: seq<Node>)

  predicate IsStar(part: string) {
    part != "" && part[0] == '*'
  }

  predicate IsWild(part: string) {
    part != "" && (part[0] == ':' || part[0] == '*')
  }

  const ROOT := Node("", "", false, [])

  // ---- The operations ----

  /** The position of the child with exactly this part, or the number of children. */
  function ChildIndex(children: seq<Node>, part: string): (i: nat)
    ensures i <= |children|
    ensures i < |children| ==> children[i].part == part
    ensures forall j :: 0 <= j < i ==> children[j].part != part
  {
    if children == [] || children[0].part == part then 0 else 1 + ChildIndex(children[1..], part)
  }

  function Insert(n: Node, pattern: string, parts: Parts, height: nat): Node
    requires height <= |parts|
    decreases |parts| - height
  {
    if |parts| == height then n.(pattern := pattern)
    else
      var part := parts[height];
      var i := ChildIndex(n.children, part);
      if i < |n.children| then n.(children := n.children[i := Insert(n.children[i], pattern, parts, height + 1)])
      else n.(children := n.children + [Insert(Node("", part, IsWild(part), []), pattern, parts, height + 1)])
  }

  function Exact(children: seq<Node>, part: string): seq<Node> {
    if children == [] then []
    else (if children[0].part == part then [children[0]] else []) + Exact(children[1..], part)
  }

  function Wildcards(children: seq<Node>, part: string): seq<Node> {
    if children == [] then []
    else (if children[0].part != part && children[0].isWild then [children[0]] else []) + Wildcards(children[1..], part)
  }

  lemma {:induction false} ExactStep(ns: seq<Node>, i: nat, part: string)
    requires i < |ns|
    ensures Exact(ns[..i + 1], part) == Exact(ns[..i], part) + (if ns[i].part == part then [ns[i]] else [])
    decreases i
  {
    if i > 0 {
      assert ns[..i + 1][1..] == ns[1..][..i] && ns[..i][1..] == ns[1..][..i - 1];
      ExactStep(ns[1..], i - 1, part);
    }
  }

  lemma {:induction false} WildcardsStep(ns: seq<Node>, i: nat, part: string)
    requires i < |ns|
    ensures Wildcards(ns[..i + 1], part) == Wildcards(ns[..i], part) + (if ns[i].part != part && ns[i].isWild then [ns[i]] else [])
    decreases i
  {
    if i > 0 {
      assert ns[..i + 1][1..] == ns[1..][..i] && ns[..i][1..] == ns[1..][..i - 1];
      WildcardsStep(ns[1..], i - 1, part);
    }
  }

  function MatchChildren(n: Node, part: string): seq<Node> {
    Exact(n.children, part) + Wildcards(n.children, part)
  }

  function Search(n: Node, segs: Parts, height: nat): Option<Node>
    requires height <= |segs|
    decreases |segs| - height, 0
  {
    if |segs| == height || IsStar(n.part) then (if n.pattern == "" then None else Some(n))
    else SearchAny(MatchChildren(n, segs[height]), segs, height + 1)
  }

  function SearchAny(ns: seq<Node>, segs: Parts, height: nat): Option<Node>
    requires height <= |segs|
    decreases |segs| - height, 1 + |ns|
  {
    if ns == [] then None
    else
      var r := Search(ns[0], segs, height);
      if r.Some? then r else SearchAny(ns[1..], segs, height)
  }

  // ---- What they are about: registered routes ----

  /** A wildcard `*` can only be the last part, as parsePattern sees to. */
  predicate Route(r: Parts) {
    forall i :: 0 <= i < |r| ==> r[i] != "" && (IsStar(r[i]) ==> i == |r| - 1)
  }

  predicate PartMatches(part: string, seg: string) {
    part == seg || IsWild(part)
  }

  /** A route matches as many segments as it has parts, or, ending in `*`, at least as many. */
  predicate Matches(r: Parts, segs: Parts) {
    && (if r != [] && IsStar(r[|r| - 1]) then |segs| >= |r| else |segs| == |r|)
    && forall i :: 0 <= i < |r| ==> PartMatches(r[i], segs[i])
  }

  function Canonical(r: Parts): string {
    "/" + Join(r)
  }

  function Join(r: Parts): string {
    if r == [] then "" else if |r| == 1 then r[0] else r[0] + "/" + Join(r[1..])
  }

  /** The routes that continue with part `c` at depth `h`, in order of registration. */
  function Sub(rs: seq<Parts>, h: nat, c: string): seq<Parts> {
    if rs == [] then []
    else
      var n := |rs| - 1;
      Sub(rs[..n], h, c) + (if |rs[n]| > h && rs[n][h] == c then [rs[n]] else [])
  }

  /** The different parts at depth `h`, in the order in which they were first registered. */
  function Firsts(rs: seq<Parts>, h: nat): seq<string> {
    if rs == [] then []
    else
      var n := |rs| - 1;
      var before := Firsts(rs[..n], h);
      if |rs[n]| > h && rs[n][h] !in before then before + [rs[n][h]] else before
  }

  /** The route that ends at depth `h`, if one does. */
  function Ending(rs: seq<Parts>, h: nat): Option<Parts> {
    if rs == [] then None
    else
      var n := |rs| - 1;
      if |rs[n]| == h then Some(rs[n]) else Ending(rs[..n], h)
  }

  function EndPattern(rs: seq<Parts>, h: nat): string {
    match Ending(rs, h)
    case None => ""
    case Some(r) => Canonical(r)
  }

  function Build(rs: seq<Parts>): Node {
    if rs == [] then ROOT else Insert(Build(rs[..|rs| - 1]), Canonical(rs[|rs| - 1]), rs[|rs| - 1], 0)
  }

  /** Node `n`, `h` steps below the root, holds exactly the routes `rs`: where they end, and below it
      one child for each different next part, in order of first registration. */
  ghost predicate Represents(n: Node, rs: seq<Parts>, h: nat)
    decreases n
  {
    && n.pattern == EndPattern(rs, h)
    && |n.children| == |Firsts(rs, h)|
    && forall i :: 0 <= i < |n.children| ==>
         && n.children[i].part == Firsts(rs, h)[i]
         && n.children[i].isWild == IsWild(n.children[i].part)
         && Represents(n.children[i], Sub(rs, h, n.children[i].part), h + 1)
  }

  lemma {:induction false} FirstsFacts(rs: seq<Parts>, h: nat)
    ensures forall c :: c in Firsts(rs, h) <==> Sub(rs, h, c) != []
    ensures forall i, j :: 0 <= i < j < |Firsts(rs, h)| ==> Firsts(rs, h)[i] != Firsts(rs, h)[j]
  {
    if rs != [] {
      FirstsFacts(rs[..|rs| - 1], h);
    }
  }

  lemma {:induction false} Grown(rs: seq<Parts>, r: Parts, h: nat)
    ensures forall c :: Sub(rs + [r], h, c) == if |r| > h && r[h] == c then Sub(rs, h, c) + [r] else Sub(rs, h, c)
    ensures Firsts(rs + [r], h) == if |r| > h && r[h] !in Firsts(rs, h) then Firsts(rs, h) + [r[h]] else Firsts(rs, h)
    ensures Ending(rs + [r], h) == if |r| == h then Some(r) else Ending(rs, h)
    ensures |r| > h ==> EndPattern(rs + [r], h) == EndPattern(rs, h)
  {
    assert (rs + [r])[..|rs|] == rs;
  }

  lemma {:induction false} FreshRepresents(part: string, h: nat)
    ensures Represents(Node("", part, IsWild(part), []), [], h)
  {
  }

  lemma {:induction false} EndsHere(n: Node, rs: seq<Parts>, r: Parts, h: nat)
    requires h == |r| && Represents(n, rs, h)
    ensures Represents(n.(pattern := Canonical(r)), rs + [r], h)
  {
    Grown(rs, r, h);
  }

  lemma {:induction false} Unfold(n: Node, rs: seq<Parts>, h: nat)
    requires Represents(n, rs, h)
    ensures n.pattern == EndPattern(rs, h) && |n.children| == |Firsts(rs, h)|
    ensures forall i :: 0 <= i < |n.children| ==> n.children[i].part == Firsts(rs, h)[i]
    ensures forall i :: 0 <= i < |n.children| ==> n.children[i].isWild == IsWild(n.children[i].part)
    ensures forall i :: 0 <= i < |n.children| ==> Represents(n.children[i], Sub(rs, h, n.children[i].part), h + 1)
  {
  }

  lemma {:induction false} Fold(n: Node, rs: seq<Parts>, h: nat)
    requires n.pattern == EndPattern(rs, h) && |n.children| == |Firsts(rs, h)|
    requires forall i :: 0 <= i < |n.children| ==> n.children[i].part == Firsts(rs, h)[i]
    requires forall i :: 0 <= i < |n.children| ==> n.children[i].isWild == IsWild(n.children[i].part)
    requires forall i :: 0 <= i < |n.children| ==> Represents(n.children[i], Sub(rs, h, n.children[i].part), h + 1)
    ensures Represents(n, rs, h)
  {
  }

  lemma {:induction false} ChildReplaced(n: Node, rs: seq<Parts>, r: Parts, h: nat, i: nat, child: Node)
    requires h < |r| && Represents(n, rs, h) && i < |n.children| && n.children[i].part == r[h]
    requires child.part == r[h] && child.isWild == n.children[i].isWild && Represents(child, Sub(rs, h, r[h]) + [r], h + 1)
    ensures Represents(n.(children := n.children[i := child]), rs + [r], h)
  {
    hide Represents, Sub, Firsts, Ending, EndPattern;
    Grown(rs, r, h);
    FirstsFacts(rs, h);
    Unfold(n, rs, h);
    assert Firsts(rs, h)[i] == r[h];
    Fold(n.(children := n.children[i := child]), rs + [r], h);
  }

  lemma {:induction false} ChildAdded(n: Node, rs: seq<Parts>, r: Parts, h: nat, child: Node)
    requires h < |r| && Represents(n, rs, h) && r[h] !in Firsts(rs, h)
    requires child.part == r[h] && child.isWild == IsWild(r[h]) && Represents(child, [r], h + 1)
    ensures Represents(n.(children := n.children + [child]), rs + [r], h)
  {
    hide Represents, Sub, Firsts, Ending, EndPattern;
    Grown(rs, r, h);
    FirstsFacts(rs, h);
    Unfold(n, rs, h);
    assert Sub(rs, h, r[h]) + [r] == [r];
    var m := n.(children := n.children + [child]);
    assert forall i :: 0 <= i < |n.children| ==> m.children[i] == n.children[i] && m.children[i].part != r[h];
    Fold(m, rs + [r], h);
  }

  /** Inserting a route adds exactly that route. */
  lemma {:induction false} InsertRepresents(n: Node, rs: seq<Parts>, r: Parts, h: nat)
    requires h <= |r| && Represents(n, rs, h)
    ensures Represents(Insert(n, Canonical(r), r, h), rs + [r], h)
    ensures Insert(n, Canonical(r), r, h).part == n.part && Insert(n, Canonical(r), r, h).isWild == n.isWild
    decreases |r| - h
  {
    hide Represents, Sub, Firsts, EndPattern, Canonical;
    if |r| == h {
      EndsHere(n, rs, r, h);
    } else {
      var c := r[h];
      var i := ChildIndex(n.children, c);
      Unfold(n, rs, h);
      if i < |n.children| {
        InsertRepresents(n.children[i], Sub(rs, h, c), r, h + 1);
        ChildReplaced(n, rs, r, h, i, Insert(n.children[i], Canonical(r), r, h + 1));
      } else {
        var blank := Node("", c, IsWild(c), []);
        FreshRepresents(c, h + 1);
        InsertRepresents(blank, [], r, h + 1);
        assert [] + [r] == [r];
        assert c !in Firsts(rs, h) by {
          forall j | 0 <= j < |Firsts(rs, h)| ensures Firsts(rs, h)[j] != c { assert n.children[j].part != c; }
        }
        ChildAdded(n, rs, r, h, Insert(blank, Canonical(r), r, h + 1));
      }
    }
  }

  /** The trie built by registering routes holds exactly those routes. */
  lemma {:induction false} BuildRepresents(rs: seq<Parts>)
    ensures Represents(Build(rs), rs, 0) && Build(rs).part == ""
  {
    if rs != [] {
      var n := |rs| - 1;
      BuildRepresents(rs[..n]);
      InsertRepresents(Build(rs[..n]), rs[..n], rs[n], 0);
      assert rs[..n] + [rs[n]] == rs;
    }
  }

  // ---- What a search should find, on the routes alone ----

  function WildFirsts(parts: seq<string>, seg: string): seq<string> {
    if parts == [] then []
    else (if parts[0] != seg && IsWild(parts[0]) then [parts[0]] else []) + WildFirsts(parts[1..], seg)
  }

  /** The next parts that accept a segment: the literal one first, then wildcards as registered. */
  function Candidates(rs: seq<Parts>, h: nat, seg: string): seq<string> {
    (if seg in Firsts(rs, h) then [seg] else []) + WildFirsts(Firsts(rs, h), seg)
  }

  /** The route chosen among `rs`, which share their first `h` parts, the last of them being `part`. */
  function Choose(rs: seq<Parts>, part: string, segs: Parts, h: nat): Option<Parts>
    requires h <= |segs|
    decreases |segs| - h, 0
  {
    if |segs| == h || IsStar(part) then Ending(rs, h)
    else ChooseAmong(rs, Candidates(rs, h, segs[h]), segs, h)
  }

  function ChooseAmong(rs: seq<Parts>, cs: seq<string>, segs: Parts, h: nat): Option<Parts>
    requires h < |segs|
    decreases |segs| - h - 1, 1 + |cs|
  {
    if cs == [] then None
    else
      var r := Choose(Sub(rs, h, cs[0]), cs[0], segs, h + 1);
      if r.Some? then r else ChooseAmong(rs, cs[1..], segs, h)
  }

  // ---- The search chooses as it should ----

  lemma {:induction false} ExactNone(ns: seq<Node>, part: string)
    requires forall i :: 0 <= i < |ns| ==> ns[i].part != part
    ensures Exact(ns, part) == []
  {
    if ns != [] {
      ExactNone(ns[1..], part);
    }
  }

  ghost predicate DistinctParts(ns: seq<Node>) {
    forall i, j :: 0 <= i < j < |ns| ==> ns[i].part != ns[j].part
  }

  function PartsOf(ns: seq<Node>): (r: seq<string>)
    ensures |r| == |ns| && forall i :: 0 <= i < |ns| ==> r[i] == ns[i].part
  {
    seq(|ns|, i requires 0 <= i < |ns| => ns[i].part)
  }

  lemma {:induction false} ExactParts(ns: seq<Node>, part: string)
    requires DistinctParts(ns)
    ensures PartsOf(Exact(ns, part)) == if part in PartsOf(ns) then [part] else []
    ensures forall c :: c in Exact(ns, part) ==> c in ns
  {
    if ns != [] {
      var rest := ns[1..];
      assert PartsOf(ns) == [ns[0].part] + PartsOf(rest);
      if ns[0].part == part {
        forall i | 0 <= i < |rest| ensures rest[i].part != part {
          assert rest[i] == ns[i + 1];
        }
        ExactNone(rest, part);
      } else {
        TailDistinct(ns);
        ExactParts(rest, part);
        assert Exact(ns, part) == Exact(rest, part);
      }
    }
  }

  lemma {:induction false} TailDistinct(ns: seq<Node>)
    requires DistinctParts(ns) && ns != []
    ensures DistinctParts(ns[1..])
  {
  }

  lemma {:induction false} WildcardParts(ns: seq<Node>, part: string)
    requires forall i :: 0 <= i < |ns| ==> ns[i].isWild == IsWild(ns[i].part)
    ensures PartsOf(Wildcards(ns, part)) == WildFirsts(PartsOf(ns), part)
    ensures forall c :: c in Wildcards(ns, part) ==> c in ns
  {
    if ns != [] {
      var rest := ns[1..];
      assert PartsOf(ns)[1..] == PartsOf(rest);
      WildcardParts(rest, part);
      hide PartsOf;
      var first := if ns[0].part != part && ns[0].isWild then [ns[0]] else [];
      assert Wildcards(ns, part) == first + Wildcards(rest, part);
      assert PartsOf(first + Wildcards(rest, part)) == PartsOf(first) + PartsOf(Wildcards(rest, part));
    }
  }

  /** The children a search tries, in order, are those of the candidate parts. */
  lemma {:induction false} MatchChildrenAre(n: Node, rs: seq<Parts>, h: nat, seg: string)
    requires Represents(n, rs, h)
    ensures var ns, cs := MatchChildren(n, seg), Candidates(rs, h, seg);
            && |ns| == |cs|
            && forall i :: 0 <= i < |ns| ==> ns[i].part == cs[i] && Represents(ns[i], Sub(rs, h, cs[i]), h + 1)
  {
    hide Represents;
    Unfold(n, rs, h);
    FirstsFacts(rs, h);
    assert PartsOf(n.children) == Firsts(rs, h);
    hide Firsts, Sub;
    ExactParts(n.children, seg);
    WildcardParts(n.children, seg);
    var ns := MatchChildren(n, seg);
    assert PartsOf(ns) == PartsOf(Exact(n.children, seg)) + PartsOf(Wildcards(n.children, seg));
    forall i | 0 <= i < |ns| ensures Represents(ns[i], Sub(rs, h, ns[i].part), h + 1) {
      assert ns[i] in n.children;
    }
  }

  /** The search finds the node of the chosen route. */
  lemma {:induction false} SearchChooses(n: Node, rs: seq<Parts>, segs: Parts, h: nat)
    requires h <= |segs| && Represents(n, rs, h)
    ensures match Choose(rs, n.part, segs, h)
            case None => Search(n, segs, h) == None
            case Some(r) => Search(n, segs, h).Some? && Search(n, segs, h).value.pattern == Canonical(r)
    decreases |segs| - h, 0
  {
    if |segs| == h || IsStar(n.part) {
      Unfold(n, rs, h);
    } else {
      MatchChildrenAre(n, rs, h, segs[h]);
      hide Represents, MatchChildren, Candidates;
      SearchAnyChooses(MatchChildren(n, segs[h]), rs, Candidates(rs, h, segs[h]), segs, h);
    }
  }

  lemma {:induction false} SearchAnyChooses(ns: seq<Node>, rs: seq<Parts>, cs: seq<string>, segs: Parts, h: nat)
    requires h < |segs| && |ns| == |cs|
    requires forall i :: 0 <= i < |ns| ==> ns[i].part == cs[i] && Represents(ns[i], Sub(rs, h, cs[i]), h + 1)
    ensures match ChooseAmong(rs, cs, segs, h)
            case None => SearchAny(ns, segs, h + 1) == None
            case Some(r) => SearchAny(ns, segs, h + 1).Some? && SearchAny(ns, segs, h + 1).value.pattern == Canonical(r)
    decreases |segs| - h - 1, 1 + |ns|
  {
    hide Represents;
    if ns != [] {
      SearchChooses(ns[0], Sub(rs, h, cs[0]), segs, h + 1);
      SearchAnyChooses(ns[1..], rs, cs[1..], segs, h);
    }
  }

  // ---- Sound, complete, prioritised ----

  /** The routes agree with each other on their first `h` parts and have at least that many. */
  ghost predicate Share(rs: seq<Parts>, h: nat, part: string) {
    && (forall i :: 0 <= i < |rs| ==> |rs[i]| >= h && Route(rs[i]))
    && (forall i, j, k :: 0 <= i < |rs| && 0 <= j < |rs| && 0 <= k < h ==> rs[i][k] == rs[j][k])
    && (h > 0 ==> forall i :: 0 <= i < |rs| ==> rs[i][h - 1] == part)
    && (h == 0 ==> part == "")
  }

  /** The part of `Matches` that concerns depth `h` and below. */
  predicate MatchesFrom(r: Parts, segs: Parts, h: nat) {
    && (if r != [] && IsStar(r[|r| - 1]) then |segs| >= |r| else |segs| == |r|)
    && forall i :: h <= i < |r| ==> PartMatches(r[i], segs[i])
  }

  /** Of two routes, `r` is preferred to `q`: where they first part, at or below depth `h`, `r` is
      literal, or neither is and `r`'s part was registered first. */
  ghost predicate Preferred(rs: seq<Parts>, segs: Parts, h: nat, r: Parts, q: Parts)
    decreases |segs| - h
  {
    h < |segs| && h < |r| && h < |q| &&
    if r[h] == q[h] then Preferred(Sub(rs, h, r[h]), segs, h + 1, r, q)
    else r[h] == segs[h] || (q[h] != segs[h] && Earlier(Firsts(rs, h), r[h], q[h]))
  }

  ghost predicate Earlier(parts: seq<string>, a: string, b: string) {
    exists i, j :: 0 <= i < j < |parts| && parts[i] == a && parts[j] == b
  }

  lemma {:induction false} SubMembers(rs: seq<Parts>, h: nat, c: string)
    ensures forall r :: r in Sub(rs, h, c) <==> r in rs && |r| > h && r[h] == c
  {
    if rs != [] {
      var n := |rs| - 1;
      SubMembers(rs[..n], h, c);
      assert rs == rs[..n] + [rs[n]];
    }
  }

  lemma {:induction false} ShareSub(rs: seq<Parts>, h: nat, part: string, c: string)
    requires Share(rs, h, part)
    ensures Share(Sub(rs, h, c), h + 1, c)
  {
    SubMembers(rs, h, c);
    var ss := Sub(rs, h, c);
    hide Sub;
    forall i | 0 <= i < |ss| ensures |ss[i]| > h && Route(ss[i]) && ss[i][h] == c && ss[i] in rs {
      assert ss[i] in ss;
    }
    forall i, j, k | 0 <= i < |ss| && 0 <= j < |ss| && 0 <= k < h + 1 ensures ss[i][k] == ss[j][k] {
      if k < h {
        assert ss[i] in rs && ss[j] in rs;
      }
    }
  }

  lemma {:induction false} EndingFacts(rs: seq<Parts>, h: nat)
    ensures match Ending(rs, h)
            case Some(r) => r in rs && |r| == h
            case None => forall r :: r in rs ==> |r| != h
  {
    if rs != [] {
      var n := |rs| - 1;
      EndingFacts(rs[..n], h);
      assert rs == rs[..n] + [rs[n]];
    }
  }

  lemma {:induction false} WildFirstsFacts(parts: seq<string>, seg: string)
    ensures forall c :: c in WildFirsts(parts, seg) <==> c in parts && c != seg && IsWild(c)
    ensures forall i, j :: 0 <= i < j < |WildFirsts(parts, seg)| ==> Earlier(parts, WildFirsts(parts, seg)[i], WildFirsts(parts, seg)[j])
  {
    if parts != [] {
      var rest := parts[1..];
      var ws := WildFirsts(rest, seg);
      WildFirstsFacts(rest, seg);
      assert parts == [parts[0]] + rest;
      forall a, b | Earlier(rest, a, b) ensures Earlier(parts, a, b) {
        var i, j :| 0 <= i < j < |rest| && rest[i] == a && rest[j] == b;
        assert parts[i + 1] == a && parts[j + 1] == b;
      }
      forall b | b in ws ensures Earlier(parts, parts[0], b) {
        var j :| 0 <= j < |rest| && rest[j] == b;
        assert parts[0] == parts[0] && parts[j + 1] == b;
      }
    }
  }

  lemma {:induction false} CandidateFacts(rs: seq<Parts>, h: nat, seg: string)
    ensures forall c :: c in Candidates(rs, h, seg) <==> Sub(rs, h, c) != [] && PartMatches(c, seg)
    ensures var cs := Candidates(rs, h, seg);
            forall i, j :: 0 <= i < j < |cs| ==> cs[i] == seg || (cs[j] != seg && Earlier(Firsts(rs, h), cs[i], cs[j]))
  {
    FirstsFacts(rs, h);
    hide Firsts, Sub, Earlier;
    WildFirstsFacts(Firsts(rs, h), seg);
    var ws, cs := WildFirsts(Firsts(rs, h), seg), Candidates(rs, h, seg);
    hide WildFirsts;
    var k := if seg in Firsts(rs, h) then 1 else 0;
    assert forall i :: k <= i < |cs| ==> cs[i] == ws[i - k];
    forall i, j | 0 <= i < j < |cs| ensures cs[i] == seg || (cs[j] != seg && Earlier(Firsts(rs, h), cs[i], cs[j])) {
      if i >= k {
        assert ws[j - k] in ws;
      }
    }
  }

  /** Whatever is chosen is registered and matches. */
  lemma {:induction false} ChooseSound(rs: seq<Parts>, part: string, segs: Parts, h: nat)
    requires h <= |segs| && Share(rs, h, part)
    ensures var r := Choose(rs, part, segs, h); r.Some? ==> r.value in rs && MatchesFrom(r.value, segs, h)
    decreases |segs| - h, 0
  {
    if |segs| == h || IsStar(part) {
      EndingFacts(rs, h);
    } else {
      CandidateFacts(rs, h, segs[h]);
      hide Share, Candidates, Sub;
      ChooseAmongSound(rs, part, Candidates(rs, h, segs[h]), segs, h);
    }
  }

  lemma {:induction false} ChooseAmongSound(rs: seq<Parts>, part: string, cs: seq<string>, segs: Parts, h: nat)
    requires h < |segs| && Share(rs, h, part)
    requires forall c :: c in cs ==> PartMatches(c, segs[h])
    ensures var r := ChooseAmong(rs, cs, segs, h); r.Some? ==> r.value in rs && MatchesFrom(r.value, segs, h)
    decreases |segs| - h - 1, 1 + |cs|
  {
    hide Share, Sub;
    if cs != [] {
      SubMembers(rs, h, cs[0]);
      ShareSub(rs, h, part, cs[0]);
      ChooseSound(Sub(rs, h, cs[0]), cs[0], segs, h + 1);
      assert cs[0] in cs;
      ChooseAmongSound(rs, part, cs[1..], segs, h);
    }
  }

  /** A route that matches from depth `h` on ends there, or continues with a candidate. */
  lemma {:induction false} Continues(rs: seq<Parts>, part: string, segs: Parts, h: nat, q: Parts)
    requires h <= |segs| && Share(rs, h, part) && q in rs && MatchesFrom(q, segs, h)
    ensures if |segs| == h || IsStar(part) then |q| == h
            else |q| > h && q in Sub(rs, h, q[h]) && q[h] in Candidates(rs, h, segs[h]) && MatchesFrom(q, segs, h + 1)
  {
    if |segs| != h && !IsStar(part) {
      assert |q| > h;
      SubMembers(rs, h, q[h]);
      CandidateFacts(rs, h, segs[h]);
    }
  }

  /** If a registered route matches, one is chosen; and of all that match, the chosen one is preferred. */
  lemma {:induction false} ChooseBest(rs: seq<Parts>, part: string, segs: Parts, h: nat, q: Parts)
    requires h <= |segs| && Share(rs, h, part) && q in rs && MatchesFrom(q, segs, h)
    ensures var r := Choose(rs, part, segs, h); r.Some? && (r.value == q || Preferred(rs, segs, h, r.value, q))
    decreases |segs| - h, 0
  {
    Continues(rs, part, segs, h, q);
    if |segs| == h || IsStar(part) {
      EndingFacts(rs, h);
      SameAtEnd(rs, part, h, q);
    } else {
      var cs := Candidates(rs, h, segs[h]);
      CandidateFacts(rs, h, segs[h]);
      hide Candidates, Share, Sub, Firsts;
      ChooseAmongBest(rs, part, cs, segs, h, q);
    }
  }

  lemma {:induction false} SameAtEnd(rs: seq<Parts>, part: string, h: nat, q: Parts)
    requires Share(rs, h, part) && q in rs && |q| == h
    ensures forall r :: r in rs && |r| == h ==> r == q
  {
  }

  lemma {:induction false} ChooseAmongBest(rs: seq<Parts>, part: string, cs: seq<string>, segs: Parts, h: nat, q: Parts)
    requires h < |segs| && Share(rs, h, part)
    requires |q| > h && q[h] in cs && q in Sub(rs, h, q[h]) && MatchesFrom(q, segs, h + 1)
    requires forall i, j :: 0 <= i < j < |cs| ==> cs[i] == segs[h] || (cs[j] != segs[h] && Earlier(Firsts(rs, h), cs[i], cs[j]))
    ensures var r := ChooseAmong(rs, cs, segs, h); r.Some? && (r.value == q || Preferred(rs, segs, h, r.value, q))
    decreases |segs| - h - 1, 1 + |cs|
  {
    hide Share, Sub, Firsts, Earlier, MatchesFrom;
    ShareSub(rs, h, part, cs[0]);
    var sub := Sub(rs, h, cs[0]);
    var first := Choose(sub, cs[0], segs, h + 1);
    if first.Some? {
      ChooseSound(sub, cs[0], segs, h + 1);
      SubMembers(rs, h, cs[0]);
    }
    if q[h] == cs[0] {
      ChooseBest(sub, cs[0], segs, h + 1, q);
    } else if first.Some? {
      var j :| 0 <= j < |cs| && cs[j] == q[h];
      assert cs[0] == segs[h] || (cs[j] != segs[h] && Earlier(Firsts(rs, h), cs[0], cs[j]));
    } else {
      ChooseAmongBest(rs, part, cs[1..], segs, h, q);
    }
  }

  lemma {:induction false} RootShares(rs: seq<Parts>)
    requires forall i :: 0 <= i < |rs| ==> Route(rs[i])
    ensures Share(rs, 0, "")
  {
  }

  /** Trie search is sound and complete: after registering any routes it finds a node exactly when a
      registered route matches, and the node is that of a registered route that matches. */
  lemma {:induction false} SearchSoundComplete(rs: seq<Parts>, segs: Parts)
    requires forall i :: 0 <= i < |rs| ==> Route(rs[i])
    ensures Search(Build(rs), segs, 0).Some? <==> exists r :: r in rs && Matches(r, segs)
    ensures Search(Build(rs), segs, 0).Some? ==>
              exists r :: r in rs && Matches(r, segs) && Search(Build(rs), segs, 0).value.pattern == Canonical(r)
  {
    BuildRepresents(rs);
    RootShares(rs);
    hide Represents, Share, Build, Search, Choose;
    SearchChooses(Build(rs), rs, segs, 0);
    ChooseSound(rs, "", segs, 0);
    forall r | r in rs && Matches(r, segs) ensures Choose(rs, "", segs, 0).Some? {
      assert MatchesFrom(r, segs, 0);
      ChooseBest(rs, "", segs, 0, r);
    }
    var c := Choose(rs, "", segs, 0);
    if c.Some? {
      assert Matches(c.value, segs);
    }
  }

  /** And prioritised: the route found is preferred to every other registered route that matches. */
  lemma {:induction false} SearchPrefers(rs: seq<Parts>, segs: Parts, q: Parts)
    requires forall i :: 0 <= i < |rs| ==> Route(rs[i])
    requires q in rs && Matches(q, segs)
    ensures exists r :: r in rs && Matches(r, segs)
              && Search(Build(rs), segs, 0).Some? && Search(Build(rs), segs, 0).value.pattern == Canonical(r)
              && (r == q || Preferred(rs, segs, 0, r, q))
  {
    BuildRepresents(rs);
    RootShares(rs);
    hide Represents, Share, Build, Search, Choose;
    SearchChooses(Build(rs), rs, segs, 0);
    ChooseSound(rs, "", segs, 0);
    assert MatchesFrom(q, segs, 0);
    ChooseBest(rs, "", segs, 0, q);
    var r := Choose(rs, "", segs, 0).value;
    assert Matches(r, segs);
  }
}
