/** The argument forms of Where, OrWhere and Having. */
module Where {
  import opened Options
  import opened Like
  import opened Filter

  datatype Error =
    | BadArity | BadField | BadOperator | Unsupported | NotAMap | BadPair | NeedsPattern
    | BlankGroupField | BlankAggField | BlankAlias | ReservedAlias | MalformedAlias

  datatype Result<+T> = Ok(value: T) | Err(error: Error)

  /** Lower case as far as it can lead to an ASCII letter: apart from A to Z only the Kelvin sign and the dotted
      capital I do.  Every operator alias is ASCII, so for looking one up other letters may stay as they are. */
  function ToLower(s: string): string {
    if s == [] then []
    else
      [ if 'A' <= s[0] <= 'Z' then s[0] - 'A' + 'a'
        else if s[0] == '\U{212A}' then 'k'
        else if s[0] == '\U{130}' then 'i'
        else s[0] ] + ToLower(s[1..])
  }

  /** White space as Unicode has it. */
  predicate IsSpace(c: char) {
    || c in "\t\n\U{0B}\U{0C}\r \U{85}\U{A0}\U{1680}\U{2028}\U{2029}\U{202F}\U{205F}\U{3000}"
    || '\U{2000}' <= c <= '\U{200A}'
  }

  function TrimLeft(s: string): string {
    if s != [] && IsSpace(s[0]) then TrimLeft(s[1..]) else s
  }

  function TrimRight(s: string): string {
    if s != [] && IsSpace(s[|s| - 1]) then TrimRight(s[..|s| - 1]) else s
  }

  function TrimSpace(s: string): string {
    TrimRight(TrimLeft(s))
  }

  const OP_ALIASES: map<string, string> := map[
    "=" := "=", "==" := "=", "!=" := "$ne", "<>" := "$ne", ">" := "$gt", ">=" := "$gte", "<" := "$lt", "<=" := "$lte",
    "in" := "$in", "not in" := "$nin", "nin" := "$nin", "like" := "like", "ilike" := "ilike",
    "between" := "between", "not between" := "notBetween"]

  function NormalizeOp(rawOp: string, value: Value): Result<(string, Value)> {
    var key := ToLower(TrimSpace(rawOp));
    if key !in OP_ALIASES then
      if rawOp != [] && rawOp[0] == '$' then Ok((rawOp, value)) else Err(Unsupported)
    else
      var op := OP_ALIASES[key];
      if op == "between" || op == "notBetween" then
        if value.List? && |value.items| == 2 then Ok((op, value)) else Err(BadPair)
      else if op == "like" || op == "ilike" then
        if value.Str? then Ok((op, value)) else Err(NeedsPattern)
      else Ok((op, value))
  }

  /** The equality condition a value stands for; nil becomes a null check. */
  function Equality(field: string, value: Value): Condition {
    if value == Null then Condition(field, "null", Null) else Condition(field, "=", value)
  }

  predicate NamesField(v: Value) {
    v.Str? && TrimSpace(v.s) != ""
  }

  /** One equality per key, in ascending order of the keys. */
  ghost predicate OnePerKey(cs: seq<Condition>, m: map<string, Value>) {
    && (forall i, j :: 0 <= i < j < |cs| ==> StrBefore(cs[i].field, cs[j].field))
    && (forall i :: 0 <= i < |cs| ==> cs[i].field in m && cs[i] == Equality(cs[i].field, m[cs[i].field]))
    && (forall k :: k in m ==> exists i :: 0 <= i < |cs| && cs[i].field == k)
  }

  ghost predicate Parses(args: seq<Value>, r: Result<seq<Condition>>) {
    if |args| == 1 then
      if args[0].Map? then r.Ok? && OnePerKey(r.value, args[0].m) else r == Err(NotAMap)
    else if |args| == 2 then
      if NamesField(args[0]) then r == Ok([Equality(args[0].s, args[1])]) else r == Err(BadField)
    else if |args| == 3 then
      if !NamesField(args[0]) then r == Err(BadField)
      else if !args[1].Str? then r == Err(BadOperator)
      else
        match NormalizeOp(args[1].s, args[2])
        case Ok(p) => r == Ok([Condition(args[0].s, p.0, p.1)])
        case Err(e) => r == Err(e)
    else r == Err(BadArity)
  }

  lemma {:induction false} StrBeforeTotal(a: string, b: string)
    ensures a == b || StrBefore(a, b) || StrBefore(b, a)
  {
    if a != [] && b != [] && a[0] == b[0] {
      StrBeforeTotal(a[1..], b[1..]);
      assert a == [a[0]] + a[1..] && b == [b[0]] + b[1..];
    }
  }

  lemma {:induction false} StrBeforeTransitive(a: string, b: string, c: string)
    requires StrBefore(a, b) && StrBefore(b, c)
    ensures StrBefore(a, c)
  {
    if a != [] && a[0] == b[0] && b[0] == c[0] {
      StrBeforeTransitive(a[1..], b[1..], c[1..]);
    }
  }

  method ParseWhereMap(m: map<string, Value>) returns (cs: seq<Condition>)
    ensures OnePerKey(cs, m)
  {
    var keys := SortKeys(m.Keys);
    cs := [];
    var i := 0;
    while i < |keys|
      invariant i <= |keys|
      invariant |cs| == i && forall j :: 0 <= j < i ==> cs[j] == Equality(keys[j], m[keys[j]])
    {
      assert keys[i] in keys;
      cs := cs + [if m[keys[i]] == Null then Condition(keys[i], "null", Null) else Condition(keys[i], "=", m[keys[i]])];
      i := i + 1;
    }
    forall k | k in m ensures exists j :: 0 <= j < |cs| && cs[j].field == k {
      assert k in keys;
      var j :| 0 <= j < |keys| && keys[j] == k;
      assert cs[j].field == k;
    }
  }

  ghost predicate Ascending(keys: seq<string>) {
    forall i, j :: 0 <= i < j < |keys| ==> StrBefore(keys[i], keys[j])
  }

  method SortKeys(keys: set<string>) returns (sorted: seq<string>)
    ensures Ascending(sorted)
    ensures forall k :: k in sorted <==> k in keys
  {
    sorted := [];
    var todo := keys;
    while todo != {}
      invariant todo <= keys && Ascending(sorted)
      invariant forall k :: k in sorted <==> k in keys - todo
      decreases todo
    {
      var k :| k in todo;
      sorted := Insert(sorted, k);
      todo := todo - {k};
    }
  }

  method Insert(keys: seq<string>, k: string) returns (more: seq<string>)
    requires Ascending(keys) && k !in keys
    ensures Ascending(more)
    ensures forall x :: x in more <==> x in keys || x == k
  {
    var i := 0;
    while i < |keys| && StrBefore(keys[i], k)
      invariant i <= |keys|
      invariant forall j :: 0 <= j < i ==> StrBefore(keys[j], k)
    {
      i := i + 1;
    }
    more := keys[..i] + [k] + keys[i..];
    if i < |keys| {
      StrBeforeTotal(keys[i], k);
      forall j | i < j < |keys| ensures StrBefore(k, keys[j]) {
        StrBeforeTransitive(k, keys[i], keys[j]);
      }
    }
    assert keys == keys[..i] + keys[i..];
  }

  method ParseWhere(args: seq<Value>) returns (r: Result<seq<Condition>>)
    ensures Parses(args, r)
    ensures r.Ok? ==> AllBuilt(r.value)
  {
    if |args| == 1 {
      if !args[0].Map? {
        return Err(NotAMap);
      }
      var cs := ParseWhereMap(args[0].m);
      return Ok(cs);
    } else if |args| == 2 {
      if !NamesField(args[0]) {
        return Err(BadField);
      }
      if args[1] == Null {
        return Ok([Condition(args[0].s, "null", Null)]);
      }
      return Ok([Condition(args[0].s, "=", args[1])]);
    } else if |args| == 3 {
      if !NamesField(args[0]) {
        return Err(BadField);
      }
      if !args[1].Str? {
        return Err(BadOperator);
      }
      NormalizedIsBuilt(args[0].s, args[1].s, args[2]);
      match NormalizeOp(args[1].s, args[2]) {
        case Ok(p) => return Ok([Condition(args[0].s, p.0, p.1)]);
        case Err(e) => return Err(e);
      }
    } else {
      return Err(BadArity);
    }
  }

  /** Whatever operator text a caller passes, an accepted one carries a value that
      buildConditionFilter can assert its type of. */
  lemma {:induction false} NormalizedIsBuilt(field: string, rawOp: string, value: Value)
    ensures match NormalizeOp(rawOp, value)
            case Ok(p) => Built(Condition(field, p.0, p.1))
            case Err(_) => true
  {
  }

  /** The object form means the conjunction of its equalities. */
  lemma {:induction false} OnePerKeyMeans(w: World, cs: seq<Condition>, m: map<string, Value>, rec: Record)
    requires OnePerKey(cs, m)
    ensures AllHold(w, cs, rec) <==> forall k :: k in m ==> EqualTo(Field(rec, k), m[k])
  {
    forall i | 0 <= i < |cs| ensures Holds(w, cs[i], rec) <==> EqualTo(Field(rec, cs[i].field), m[cs[i].field]) {
    }
    if AllHold(w, cs, rec) {
      forall k | k in m ensures EqualTo(Field(rec, k), m[k]) {
        var i :| 0 <= i < |cs| && cs[i].field == k;
        assert Holds(w, cs[i], rec);
      }
    }
  }

  // ---- What operator texts mean ----

  predicate AllSpace(s: string) {
    forall i :: 0 <= i < |s| ==> IsSpace(s[i])
  }

  /** White space around a text that has none at its ends is what is cut off. */
  lemma {:induction false} TrimCuts(left: string, text: string, right: string)
    requires AllSpace(left) && AllSpace(right)
    requires text != [] ==> !IsSpace(text[0]) && !IsSpace(text[|text| - 1])
    ensures TrimSpace(left + text + right) == text
  {
    hide IsSpace;
    if text == [] {
      var s := left + text + right;
      assert AllSpace(s);
      TrimLeftAll(s);
    } else {
      assert left + text + right == left + (text + right);
      TrimLeftCuts(left, text + right);
      TrimRightCuts(text, right);
    }
  }

  lemma {:induction false} TrimLeftAll(s: string)
    requires AllSpace(s)
    ensures TrimLeft(s) == []
  {
    if s != [] {
      TrimLeftAll(s[1..]);
    }
  }

  lemma {:induction false} TrimLeftCuts(left: string, s: string)
    requires AllSpace(left) && s != [] && !IsSpace(s[0])
    ensures TrimLeft(left + s) == s
  {
    if left == [] {
      assert left + s == s;
    } else {
      assert (left + s)[1..] == left[1..] + s;
      TrimLeftCuts(left[1..], s);
    }
  }

  lemma {:induction false} TrimRightCuts(s: string, right: string)
    requires AllSpace(right) && s != [] && !IsSpace(s[|s| - 1])
    ensures TrimRight(s + right) == s
  {
    hide IsSpace;
    if right == [] {
      assert s + right == s;
    } else {
      var n := |right| - 1;
      assert (s + right)[..|s| + n] == s + right[..n];
      TrimRightCuts(s, right[..n]);
    }
  }

  lemma {:induction false} Edges(s: string) returns (left: string, right: string)
    ensures AllSpace(left) && AllSpace(right) && s == left + TrimSpace(s) + right
    ensures TrimSpace(s) != [] ==> !IsSpace(TrimSpace(s)[0]) && !IsSpace(TrimSpace(s)[|TrimSpace(s)| - 1])
  {
    hide IsSpace;
    var rest: string;
    left, rest := LeftEdge(s);
    right := RightEdge(rest);
  }

  lemma {:induction false} LeftEdge(s: string) returns (left: string, rest: string)
    ensures AllSpace(left) && rest == TrimLeft(s) && s == left + rest && (rest != [] ==> !IsSpace(rest[0]))
  {
    if s != [] && IsSpace(s[0]) {
      left, rest := LeftEdge(s[1..]);
      left := [s[0]] + left;
    } else {
      left, rest := [], s;
    }
  }

  lemma {:induction false} RightEdge(s: string) returns (right: string)
    ensures AllSpace(right) && s == TrimRight(s) + right
    ensures TrimRight(s) != [] ==> TrimRight(s)[0] == s[0] && !IsSpace(TrimRight(s)[|TrimRight(s)| - 1])
  {
    hide IsSpace;
    right := [];
    if s != [] && IsSpace(s[|s| - 1]) {
      var more := RightEdge(s[..|s| - 1]);
      right := more + [s[|s| - 1]];
    }
  }

  lemma {:induction false} BlankIsSpace(s: string)
    ensures TrimSpace(s) == "" <==> AllSpace(s)
  {
    hide IsSpace;
    var left, right := Edges(s);
    if TrimSpace(s) == "" {
      assert s == left + right;
    } else {
      assert s[|left|] == TrimSpace(s)[0];
    }
  }

  /** A name is one unless it is white space throughout. */
  lemma {:induction false} NamesUnlessBlank(v: Value)
    ensures NamesField(v) <==> v.Str? && exists i :: 0 <= i < |v.s| && !IsSpace(v.s[i])
  {
    if v.Str? {
      hide IsSpace, TrimSpace;
      BlankIsSpace(v.s);
    }
  }

  /** Letters of any case are read alike. */
  lemma {:induction false} LowerAt(s: string, i: nat)
    requires i < |s|
    ensures |ToLower(s)| == |s|
    ensures 'a' <= ToLower(s)[i] <= 'z' && s[i] < '\U{80}' ==> ToLower(s)[i] == s[i] || (s[i] < 'a' && ToLower(s)[i] - s[i] == 'a' - 'A')
    ensures !('A' <= ToLower(s)[i] <= 'Z') && (s[i] < '\U{80}' && !('A' <= s[i] <= 'Z') ==> ToLower(s)[i] == s[i])
  {
    if |s| > 1 {
      LowerAt(s[1..], if i > 0 then i - 1 else 0);
    } else {
      assert s[1..] == [];
    }
  }

  const COMPARISONS := {"=", "==", "!=", "<>", ">", ">=", "<", "<=", "in", "not in", "nin"}

  /** Which texts select an operator, and with what values. */
  predicate Understood(text: string, v: Value) {
    || text in COMPARISONS
    || (text in {"like", "ilike"} && v.Str?)
    || (text in {"between", "not between"} && v.List? && |v.items| == 2)
  }

  /** What an operator text says about a field and a value. */
  predicate Says(w: World, text: string, x: Option<Value>, v: Value) {
    if text == "=" || text == "==" then EqualTo(x, v)
    else if text == "!=" || text == "<>" then !EqualTo(x, v)
    else if text == ">" then x.Some? && Before(v, x.value)
    else if text == ">=" then (x.Some? && Before(v, x.value)) || EqualTo(x, v)
    else if text == "<" then x.Some? && Before(x.value, v)
    else if text == "<=" then (x.Some? && Before(x.value, v)) || EqualTo(x, v)
    else if text == "in" then v.List? && exists i :: 0 <= i < |v.items| && EqualTo(x, v.items[i])
    else if text == "not in" || text == "nin" then !v.List? || forall i :: 0 <= i < |v.items| ==> !EqualTo(x, v.items[i])
    else if text == "like" then v.Str? && x.Some? && x.value.Str? && Likes(v.s, x.value.s, EXACT)
    else if text == "ilike" then v.Str? && x.Some? && x.value.Str? && Likes(v.s, x.value.s, w.foldCase)
    else if text == "between" then v.List? && |v.items| == 2 && From(x, v.items[0], v.items[1])
    else if text == "not between" then !(v.List? && |v.items| == 2 && From(x, v.items[0], v.items[1]))
    else false
  }

  predicate From(x: Option<Value>, low: Value, high: Value) {
    && ((x.Some? && Before(low, x.value)) || EqualTo(x, low))
    && ((x.Some? && Before(x.value, high)) || EqualTo(x, high))
  }

  const WORDS := COMPARISONS + {"like", "ilike", "between", "not between"}

  lemma {:induction false} KeysAreWords(text: string)
    ensures text in OP_ALIASES <==> text in WORDS
  {
  }

  /** An operator text is understood whatever white space is around it and whatever the case of its letters; then it
      selects what it says.  Any other is taken as it is if it begins with "$", and refused otherwise. */
  lemma {:induction false} OperatorMeans(w: World, rawOp: string, field: string, v: Value, rec: Record)
    ensures var text, r := ToLower(TrimSpace(rawOp)), NormalizeOp(rawOp, v);
            && (r.Ok? <==> Understood(text, v) || (text !in WORDS && rawOp != [] && rawOp[0] == '$'))
            && (r.Ok? && text in WORDS ==> (Holds(w, Condition(field, r.value.0, r.value.1), rec) <==> Says(w, text, Field(rec, field), v)))
            && (r.Ok? && text !in WORDS ==> r.value == (rawOp, v))
  {
    var text := ToLower(TrimSpace(rawOp));
    hide ToLower, TrimSpace;
    KeysAreWords(text);
    if text in WORDS {
      WordAccepted(rawOp, v);
      if Understood(text, v) {
        WordMeans(w, text, field, v, rec);
      }
      hide NormalizeOp, Holds, Says, Understood;
    }
  }

  lemma {:induction false} WordAccepted(rawOp: string, v: Value)
    requires ToLower(TrimSpace(rawOp)) in WORDS
    ensures var text, r := ToLower(TrimSpace(rawOp)), NormalizeOp(rawOp, v);
            && text in OP_ALIASES && (r.Ok? <==> Understood(text, v)) && (r.Ok? ==> r.value == (OP_ALIASES[text], v))
  {
    hide ToLower, TrimSpace;
  }

  lemma {:induction false} WordMeans(w: World, text: string, field: string, v: Value, rec: Record)
    requires text in WORDS && text in OP_ALIASES && Understood(text, v)
    ensures Holds(w, Condition(field, OP_ALIASES[text], v), rec) <==> Says(w, text, Field(rec, field), v)
  {
    if text in COMPARISONS {
      ComparisonMeans(w, text, field, v, rec);
    } else {
      hide Likes, Before, EqualTo, Field;
    }
  }

  lemma {:induction false} ComparisonMeans(w: World, text: string, field: string, v: Value, rec: Record)
    requires text in COMPARISONS && text in OP_ALIASES
    ensures Holds(w, Condition(field, OP_ALIASES[text], v), rec) <==> Says(w, text, Field(rec, field), v)
  {
    hide Likes, Before, EqualTo, Field;
  }

  /** What the arguments of Where mean: an object is the conjunction of its equalities, a field and a value an
      equality, and three arguments what the operator text says.  Everything else is refused. */
  lemma {:induction false} ArgumentsMean(w: World, args: seq<Value>, r: Result<seq<Condition>>, rec: Record)
    requires Parses(args, r)
    ensures r.Ok? ==> 1 <= |args| <= 3 && (|args| == 1 <==> args[0].Map?)
    ensures |args| == 1 && args[0].Map? ==> r.Ok? && (AllHold(w, r.value, rec) <==> forall k :: k in args[0].m ==> EqualTo(Field(rec, k), args[0].m[k]))
    ensures |args| == 2 && NamesField(args[0]) ==> r.Ok? && (AllHold(w, r.value, rec) <==> EqualTo(Field(rec, args[0].s), args[1]))
    ensures r.Ok? && |args| > 1 ==> NamesField(args[0])
    ensures r.Ok? && |args| == 3 ==> args[1].Str?
    ensures |args| == 3 && NamesField(args[0]) && args[1].Str? ==>
              var text := ToLower(TrimSpace(args[1].s));
              && (text in WORDS ==> (r.Ok? <==> Understood(text, args[2])))
              && (text in WORDS && r.Ok? ==> (AllHold(w, r.value, rec) <==> Says(w, text, Field(rec, args[0].s), args[2])))
  {
    hide Says, Understood, NormalizeOp, ToLower, TrimSpace, OnePerKey;
    if |args| == 1 && args[0].Map? {
      OnePerKeyMeans(w, r.value, args[0].m, rec);
    } else if |args| == 2 && NamesField(args[0]) {
      assert AllHold(w, r.value, rec) <==> Holds(w, r.value[0], rec);
    } else if |args| == 3 && NamesField(args[0]) && args[1].Str? {
      OperatorMeans(w, args[1].s, args[0].s, args[2], rec);
      if r.Ok? {
        assert AllHold(w, r.value, rec) <==> Holds(w, r.value[0], rec);
      }
    }
  }
}
