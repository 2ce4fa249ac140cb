/** Paths, patterns and parameters around the route trie. */
module Router {
  import opened Options
  import opened Trie

  // ---- parsePattern ----

  function Split(s: string): (r: seq<string>)
    ensures |r| > 0
  {
    if s == [] then [""]
    else if s[0] == '/' then [""] + Split(s[1..])
    else var rest := Split(s[1..]); [[s[0]] + rest[0]] + rest[1..]
  }

  /** Empty items are dropped, and nothing is read past an item that begins with `*`. */
  function Take(items: seq<string>): Parts {
    if items == [] then []
    else if items[0] == "" then Take(items[1..])
    else if items[0][0] == '*' then [items[0]]
    else [items[0]] + Take(items[1..])
  }

  function Parse(pattern: string): Parts {
    Take(Split(pattern))
  }

  method ParsePattern(pattern: string) returns (parts: Parts)
    ensures parts == Parse(pattern)
  {
    var vs := Split(pattern);
    parts := [];
    var i := 0;
    while i < |vs|
      invariant i <= |vs|
      invariant parts + Take(vs[i..]) == Take(vs)
    {
      assert vs[i..][1..] == vs[i + 1..];
      if vs[i] != "" {
        parts := parts + [vs[i]];
        if vs[i][0] == '*' {
          return;
        }
      }
      i := i + 1;
    }
    assert parts + [] == parts;
  }

  ghost predicate NoSlash(parts: Parts) {
    forall i :: 0 <= i < |parts| ==> '/' !in parts[i]
  }

  lemma {:induction false} SplitNoSlash(s: string)
    ensures NoSlash(Split(s))
  {
    if s != [] {
      SplitNoSlash(s[1..]);
    }
  }

  /** Joined again, the pieces are the text; so they are what stands between its slashes. */
  lemma {:induction false} SplitBack(s: string)
    ensures Join(Split(s)) == s
  {
    if s != [] {
      SplitBack(s[1..]);
      var rest := Split(s[1..]);
      if s[0] == '/' {
        assert ([""] + rest)[1..] == rest;
      } else {
        assert ([[s[0]] + rest[0]] + rest[1..])[1..] == rest[1..];
      }
    }
  }

  lemma {:induction false} TakeRoute(items: seq<string>)
    ensures Route(Take(items))
    ensures NoSlash(items) ==> NoSlash(Take(items))
  {
    if items != [] {
      TakeRoute(items[1..]);
    }
  }

  /** Whatever the pattern, its parts form a route. */
  lemma {:induction false} ParseRoute(pattern: string)
    ensures Route(Parse(pattern)) && NoSlash(Parse(pattern))
  {
    SplitNoSlash(pattern);
    TakeRoute(Split(pattern));
  }

  lemma {:induction false} SplitPiece(p: string, rest: string)
    requires '/' !in p
    ensures Split(p + "/" + rest) == [p] + Split(rest)
    ensures Split(p) == [p]
    decreases |p|
  {
    if p == [] {
      assert p + "/" + rest == "/" + rest && ("/" + rest)[1..] == rest;
    } else {
      assert (p + "/" + rest)[1..] == p[1..] + "/" + rest;
      assert '/' !in p[1..];
      SplitPiece(p[1..], rest);
      assert [p[0]] + p[1..] == p;
    }
  }

  lemma {:induction false} SplitJoin(parts: Parts)
    requires NoSlash(parts) && parts != []
    ensures Split(Join(parts)) == parts
  {
    if |parts| == 1 {
      SplitPiece(parts[0], "");
    } else {
      assert NoSlash(parts[1..]);
      SplitPiece(parts[0], Join(parts[1..]));
      SplitJoin(parts[1..]);
    }
  }

  lemma {:induction false} TakeAll(parts: Parts)
    requires Route(parts)
    ensures Take(parts) == parts
  {
    if parts != [] {
      if IsStar(parts[0]) {
        assert |parts| == 1;
      } else {
        forall i | 0 <= i < |parts[1..]| ensures parts[1..][i] != "" && (IsStar(parts[1..][i]) ==> i == |parts[1..]| - 1) {
          assert parts[1..][i] == parts[i + 1];
        }
        TakeAll(parts[1..]);
      }
    }
  }

  /** Canonical patterns read back as their parts, so different spellings of one pattern share a node. */
  lemma {:induction false} ParseCanonical(parts: Parts)
    requires Route(parts) && NoSlash(parts)
    ensures Parse(Canonical(parts)) == parts
  {
    var c := Canonical(parts);
    assert c[1..] == Join(parts);
    if parts == [] {
      assert Split("") == [""];
      assert Take([""] + [""]) == Take([""]) == [] by { assert ([""] + [""])[1..] == [""]; }
    } else {
      SplitJoin(parts);
      assert ([""] + parts)[1..] == parts;
      TakeAll(parts);
    }
  }

  /** Patterns are told apart exactly by their parts. */
  lemma {:induction false} CanonicalInjective(p: Parts, q: Parts)
    requires Route(p) && NoSlash(p) && Route(q) && NoSlash(q) && Canonical(p) == Canonical(q)
    ensures p == q
  {
    ParseCanonical(p);
    ParseCanonical(q);
  }

  // ---- Parameters ----

  /** The parameters read off at parts number `i` and up; later ones overwrite earlier ones. */
  function ParamsFrom(parts: Parts, segs: Parts, i: nat, acc: map<string, string>): map<string, string>
    requires Route(parts) && Matches(parts, segs) && i <= |parts|
    decreases |parts| - i
  {
    if i == |parts| then acc
    else
      var part := parts[i];
      if part[0] == ':' then ParamsFrom(parts, segs, i + 1, acc[part[1..] := segs[i]])
      else if part[0] == '*' && |part| > 1 then acc[part[1..] := Join(segs[i..])]
      else ParamsFrom(parts, segs, i + 1, acc)
  }

  function Params(parts: Parts, segs: Parts): map<string, string>
    requires Route(parts) && Matches(parts, segs)
  {
    ParamsFrom(parts, segs, 0, map[])
  }

  /** No index goes out of bounds, because a found route matches the segments. */
  method ReadParams(parts: Parts, segs: Parts) returns (params: map<string, string>)
    requires Route(parts) && Matches(parts, segs)
    ensures params == Params(parts, segs)
  {
    params := map[];
    for index := 0 to |parts|
      invariant ParamsFrom(parts, segs, index, params) == Params(parts, segs)
    {
      var part := parts[index];
      if part[0] == ':' {
        params := params[part[1..] := segs[index]];
      }
      if part[0] == '*' && |part| > 1 {
        params := params[part[1..] := Join(segs[index..])];
        return;
      }
    }
  }

  /** The name of the parameter a part binds. */
  function NameOf(part: string): Option<string> {
    if part != "" && (part[0] == ':' || (part[0] == '*' && |part| > 1)) then Some(part[1..]) else None
  }

  ghost predicate DistinctNames(parts: Parts) {
    forall i, j :: 0 <= i < j < |parts| && NameOf(parts[i]).Some? ==> NameOf(parts[i]) != NameOf(parts[j])
  }

  /** Every `*` has a name. */
  ghost predicate StarsNamed(parts: Parts) {
    forall i :: 0 <= i < |parts| && IsStar(parts[i]) ==> |parts[i]| > 1
  }

  /** Puts parameter values back in the place of the parts that bind them. */
  function Substitute(parts: Parts, params: map<string, string>): Parts {
    if parts == [] then []
    else
      var name := NameOf(parts[0]);
      [if name.Some? && name.value in params then params[name.value] else parts[0]] + Substitute(parts[1..], params)
  }

  lemma {:induction false} SubstituteAt(parts: Parts, params: map<string, string>)
    ensures |Substitute(parts, params)| == |parts|
    ensures forall i :: 0 <= i < |parts| ==>
              Substitute(parts, params)[i] ==
              var name := NameOf(parts[i]); if name.Some? && name.value in params then params[name.value] else parts[i]
  {
    if parts != [] {
      SubstituteAt(parts[1..], params);
    }
  }

  /** What a bound name ends up with. */
  function ValueAt(parts: Parts, segs: Parts, i: nat): string
    requires i < |parts| && i < |segs|
  {
    if IsStar(parts[i]) then Join(segs[i..]) else segs[i]
  }

  lemma {:induction false} ParamsKeep(parts: Parts, segs: Parts, i: nat, acc: map<string, string>, name: string)
    requires Route(parts) && Matches(parts, segs) && i <= |parts| && name in acc
    requires forall j :: i <= j < |parts| ==> NameOf(parts[j]) != Some(name)
    ensures var r := ParamsFrom(parts, segs, i, acc); name in r && r[name] == acc[name]
    decreases |parts| - i
  {
    if i < |parts| {
      var part := parts[i];
      assert NameOf(part) != Some(name);
      if part[0] == ':' {
        ParamsKeep(parts, segs, i + 1, acc[part[1..] := segs[i]], name);
      } else if part[0] == '*' && |part| > 1 {
      } else {
        ParamsKeep(parts, segs, i + 1, acc, name);
      }
    }
  }

  lemma {:induction false} ParamsLast(parts: Parts, segs: Parts, i: nat, acc: map<string, string>, k: nat)
    requires Route(parts) && Matches(parts, segs)
    requires i <= k < |parts| && NameOf(parts[k]).Some?
    requires forall j :: k < j < |parts| ==> NameOf(parts[j]) != NameOf(parts[k])
    ensures var r, name := ParamsFrom(parts, segs, i, acc), NameOf(parts[k]).value;
            name in r && r[name] == ValueAt(parts, segs, k)
    decreases |parts| - i
  {
    var part := parts[i];
    if i == k {
      if part[0] == ':' {
        ParamsKeep(parts, segs, i + 1, acc[part[1..] := segs[i]], part[1..]);
      }
    } else {
      assert !IsStar(part);
      ParamsLast(parts, segs, i + 1, if part[0] == ':' then acc[part[1..] := segs[i]] else acc, k);
    }
  }

  lemma {:induction false} ParamsNamed(parts: Parts, segs: Parts, i: nat, acc: map<string, string>, name: string)
    requires Route(parts) && Matches(parts, segs) && i <= |parts|
    requires name in ParamsFrom(parts, segs, i, acc) && name !in acc
    ensures exists k :: i <= k < |parts| && NameOf(parts[k]) == Some(name)
    decreases |parts| - i
  {
    if i < |parts| && NameOf(parts[i]) != Some(name) {
      var part := parts[i];
      if part[0] == ':' {
        ParamsNamed(parts, segs, i + 1, acc[part[1..] := segs[i]], name);
      } else if !(part[0] == '*' && |part| > 1) {
        ParamsNamed(parts, segs, i + 1, acc, name);
      }
    }
  }

  /** Each parameter holds the segment (or, for `*`, the rest of the path) that its part matched, the last part if
      several have the name; and there are no parameters but those the parts name. */
  lemma {:induction false} ParamsBind(parts: Parts, segs: Parts, name: string)
    requires Route(parts) && Matches(parts, segs)
    ensures forall k :: 0 <= k < |parts| && NameOf(parts[k]) == Some(name) && (forall j :: k < j < |parts| ==> NameOf(parts[j]) != Some(name)) ==>
              name in Params(parts, segs) && Params(parts, segs)[name] == ValueAt(parts, segs, k)
    ensures name in Params(parts, segs) <==> exists k :: 0 <= k < |parts| && NameOf(parts[k]) == Some(name)
  {
    forall k | 0 <= k < |parts| && NameOf(parts[k]) == Some(name) && forall j :: k < j < |parts| ==> NameOf(parts[j]) != Some(name)
      ensures name in Params(parts, segs) && Params(parts, segs)[name] == ValueAt(parts, segs, k)
    {
      ParamsLast(parts, segs, 0, map[], k);
    }
    if name in Params(parts, segs) {
      ParamsNamed(parts, segs, 0, map[], name);
    }
    if k :| 0 <= k < |parts| && NameOf(parts[k]) == Some(name) {
      var last := LastNamed(parts, k);
      ParamsLast(parts, segs, 0, map[], last);
    }
  }

  lemma {:induction false} LastNamed(parts: Parts, k: nat) returns (last: nat)
    requires k < |parts|
    ensures k <= last < |parts| && NameOf(parts[last]) == NameOf(parts[k])
    ensures forall j :: last < j < |parts| ==> NameOf(parts[j]) != NameOf(parts[k])
    decreases |parts| - k
  {
    if j :| k < j < |parts| && NameOf(parts[j]) == NameOf(parts[k]) {
      last := LastNamed(parts, j);
    } else {
      last := k;
    }
  }

  lemma {:induction false} JoinSplitAt(segs: Parts, i: nat)
    requires 0 < i < |segs|
    ensures Join(segs[..i] + [Join(segs[i..])]) == Join(segs)
  {
    if i == 1 {
      assert segs[..1] + [Join(segs[1..])] == [segs[0], Join(segs[1..])];
      assert [segs[0], Join(segs[1..])][1..] == [Join(segs[1..])];
    } else {
      var rest := segs[1..];
      assert (segs[..i] + [Join(segs[i..])])[1..] == rest[..i - 1] + [Join(rest[i - 1..])] by { assert rest[i - 1..] == segs[i..]; assert segs[..i][1..] == rest[..i - 1]; }
      JoinSplitAt(rest, i - 1);
    }
  }

  lemma {:induction false} SubstitutedAt(parts: Parts, segs: Parts, i: nat)
    requires Route(parts) && Matches(parts, segs) && DistinctNames(parts) && StarsNamed(parts) && i < |parts|
    ensures i < |segs| && |Substitute(parts, Params(parts, segs))| == |parts|
    ensures Substitute(parts, Params(parts, segs))[i] == ValueAt(parts, segs, i)
  {
    SubstituteAt(parts, Params(parts, segs));
    if NameOf(parts[i]).Some? {
      ParamsLast(parts, segs, 0, map[], i);
    } else {
      assert PartMatches(parts[i], segs[i]);
    }
  }

  lemma {:induction false} RebuildStar(parts: Parts, segs: Parts, sub: Parts)
    requires Route(parts) && parts != [] && IsStar(parts[|parts| - 1]) && |parts| <= |segs|
    requires |sub| == |parts| && forall i :: 0 <= i < |parts| ==> sub[i] == ValueAt(parts, segs, i)
    ensures Join(sub) == Join(segs)
  {
    hide Join;
    var k := |parts| - 1;
    assert sub[k] == Join(segs[k..]);
    assert sub == segs[..k] + [Join(segs[k..])];
    if k == 0 {
      assert segs[0..] == segs && sub == [Join(segs)];
      JoinOne(Join(segs));
    } else {
      JoinSplitAt(segs, k);
    }
  }

  lemma {:induction false} JoinOne(s: string)
    ensures Join([s]) == s
  {
  }

  /** Rebuilding: with distinct parameter names and every wildcard named, putting the parameters back
      into the pattern gives the path again. */
  lemma {:induction false} ParamsRebuild(parts: Parts, segs: Parts)
    requires Route(parts) && Matches(parts, segs) && DistinctNames(parts) && StarsNamed(parts)
    ensures Join(Substitute(parts, Params(parts, segs))) == Join(segs)
  {
    hide Substitute, Params, Join;
    var sub := Substitute(parts, Params(parts, segs));
    SubstituteAt(parts, Params(parts, segs));
    assert |sub| == |parts| <= |segs|;
    forall i | 0 <= i < |parts| ensures sub[i] == ValueAt(parts, segs, i) {
      SubstitutedAt(parts, segs, i);
    }
    if parts != [] && IsStar(parts[|parts| - 1]) {
      RebuildStar(parts, segs, sub);
    } else {
      assert forall i :: 0 <= i < |parts| ==> sub[i] == segs[i];
      assert sub == segs;
    }
  }

  // ---- Paths with items after one that begins with `*` ----

  /** The items of a path, without the empty ones. */
  function Items(items: seq<string>): Parts {
    if items == [] then [] else (if items[0] == "" then [] else [items[0]]) + Items(items[1..])
  }

  function PathItems(path: string): Parts {
    Items(Split(path))
  }

  /** Nothing follows an item that begins with `*`. */
  ghost predicate StarsLast(parts: Parts) {
    forall i :: 0 <= i < |parts| - 1 ==> !IsStar(parts[i])
  }

  lemma {:induction false} ItemsPlain(items: seq<string>)
    ensures forall i :: 0 <= i < |Items(items)| ==> Items(items)[i] != ""
    ensures NoSlash(items) ==> NoSlash(Items(items))
  {
    if items != [] {
      ItemsPlain(items[1..]);
    }
  }

  lemma {:induction false} ConsStars(item: string, rest: Parts)
    ensures StarsLast([item] + rest) <==> rest == [] || (!IsStar(item) && StarsLast(rest))
  {
    var all := [item] + rest;
    assert forall i :: 0 <= i < |rest| ==> all[i + 1] == rest[i];
    if rest != [] && IsStar(item) {
      assert IsStar(all[0]);
    }
  }

  lemma {:induction false} TakeCuts(items: seq<string>)
    ensures Take(items) <= Items(items)
    ensures Take(items) == Items(items) <==> StarsLast(Items(items))
    ensures Items(items) != [] ==> Take(items) != []
  {
    if items == [] {
      assert StarsLast([]);
    } else {
      TakeCuts(items[1..]);
      hide StarsLast;
      ConsStars(items[0], Items(items[1..]));
      ConsPrefix(items[0], Take(items[1..]), Items(items[1..]));
    }
  }

  lemma {:induction false} ConsPrefix(item: string, p: Parts, q: Parts)
    requires p <= q
    ensures [item] + p <= [item] + q && ([item] + p == [item] + q <==> p == q)
    ensures [item] <= [item] + q && ([item] == [item] + q <==> q == [])
  {
    assert ([item] + p)[1..] == p && ([item] + q)[1..] == q;
  }

  /** A request path is read to its end exactly when nothing follows an item that begins with `*`;
      otherwise the rest is cut off. */
  lemma {:induction false} ReadWhole(path: string)
    ensures Parse(path) <= PathItems(path)
    ensures Parse(path) == PathItems(path) <==> StarsLast(PathItems(path))
  {
    TakeCuts(Split(path));
  }

  /** `n` parts that each match anything. */
  function AnyParts(n: nat): Parts {
    seq(n, i => ":")
  }

  /** The routes that match what getRoute reads of a path are those that match the path itself, for all routes,
      exactly when nothing follows an item that begins with `*`. */
  lemma {:induction false} MatchedWhole(path: string)
    ensures (forall r :: Route(r) ==> (Matches(r, Parse(path)) <==> Matches(r, PathItems(path)))) <==> StarsLast(PathItems(path))
  {
    ReadWhole(path);
    if !StarsLast(PathItems(path)) {
      var r := AnyParts(|Parse(path)|);
      assert Route(r) && Matches(r, Parse(path)) && !Matches(r, PathItems(path));
    }
  }

  lemma {:induction false} JoinInjective(p: Parts, q: Parts)
    requires NoSlash(p) && NoSlash(q) && p != [] && q != [] && Join(p) == Join(q)
    ensures p == q
  {
    SplitJoin(p);
    SplitJoin(q);
  }

  /** Putting the parameters back into the pattern rebuilds the path, but for repeated slashes, exactly when
      nothing follows an item that begins with `*`. */
  lemma {:induction false} PathRebuild(parts: Parts, path: string)
    requires Route(parts) && Matches(parts, Parse(path)) && DistinctNames(parts) && StarsNamed(parts)
    ensures Canonical(Substitute(parts, Params(parts, Parse(path)))) == Canonical(PathItems(path)) <==> StarsLast(PathItems(path))
  {
    var segs, items := Parse(path), PathItems(path);
    ReadWhole(path);
    TakeCuts(Split(path));
    SplitNoSlash(path);
    ItemsPlain(Split(path));
    TakeRoute(Split(path));
    ParamsRebuild(parts, segs);
    hide Join, Parse, PathItems, Substitute, Params, StarsLast, Matches, Route, NoSlash;
    if Canonical(Substitute(parts, Params(parts, segs))) == Canonical(items) {
      assert Join(segs) == Join(items) by { Tails(Join(Substitute(parts, Params(parts, segs))), Join(items)); }
      if segs != [] {
        JoinInjective(segs, items);
      }
    }
  }

  lemma {:induction false} Tails(a: string, b: string)
    requires "/" + a == "/" + b
    ensures a == b
  {
    assert a == ("/" + a)[1..] == ("/" + b)[1..] == b;
  }
}
