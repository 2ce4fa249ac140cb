/** Conditions, the MongoDB filter documents they are compiled to, and what both of them mean. */
module Filter {
  import opened Options
  import opened Like

  /** The dynamically typed values that queries and documents carry. */
  datatype Value = Null | Num(n: real) | Str(s: string) | List(items: seq<Value>) | Map(m: map<string, Value>)

  /** A document, seen through its (possibly dotted) field paths. */
  type Record = map<string, Value>

  function Field(rec: Record, f: string): Option<Value> {
    if f in rec then Some(rec[f]) else None
  }

  /** `op` is "=", "null", "notNull", "between", "notBetween", "like", "ilike" or a "$" operator. */
  datatype Condition = Condition(field: string, op: string, value: Value)

  // ---- Filter documents ----

  datatype Operand = Plain(v: Value) | Range(low: Value, high: Value) | Pattern(regex: string, ignoreCase: bool)

  datatype FieldFilter = Equals(v: Value) | Ops(ops: map<string, Operand>)

  /** A filter document; `ands` and `ors` are its "$and" and "$or" arrays, empty when absent. */
  datatype Doc = Doc(fields: map<string, FieldFilter>, ands: seq<Doc>, ors: seq<Doc>)

  // ---- What operators mean ----

  /** What the model leaves open: which letters are the same ignoring case, and operators it does not know. */
  datatype World = World(foldCase: Fold, other: (string, Value, Option<Value>) -> bool)

  const EXACT: Fold := (a, b) => a == b

  /** Equality with null also accepts a missing field. */
  predicate EqualTo(x: Option<Value>, v: Value) {
    if v == Null then x == None || x == Some(Null) else x == Some(v)
  }

  predicate StrBefore(a: string, b: string) {
    b != [] && (a == [] || a[0] < b[0] || (a[0] == b[0] && StrBefore(a[1..], b[1..])))
  }

  /** Order comparisons only relate values of one type. */
  predicate Before(a: Value, b: Value) {
    match (a, b)
    case (Num(m), Num(n)) => m < n
    case (Str(s), Str(t)) => StrBefore(s, t)
    case _ => false
  }

  predicate Above(x: Option<Value>, v: Value) {
    x.Some? && Before(v, x.value)
  }

  predicate Below(x: Option<Value>, v: Value) {
    x.Some? && Before(x.value, v)
  }

  predicate AtLeast(x: Option<Value>, v: Value) {
    Above(x, v) || EqualTo(x, v)
  }

  predicate AtMost(x: Option<Value>, v: Value) {
    Below(x, v) || EqualTo(x, v)
  }

  predicate OneOf(x: Option<Value>, v: Value) {
    v.List? && exists i :: 0 <= i < |v.items| && EqualTo(x, v.items[i])
  }

  predicate OpHolds(w: World, op: string, operand: Operand, x: Option<Value>) {
    match operand
    case Range(low, high) => !(AtLeast(x, low) && AtMost(x, high))
    case Pattern(re, ignoreCase) => x.Some? && x.value.Str? && RegexMatches(re, x.value.s, if ignoreCase then w.foldCase else EXACT)
    case Plain(v) =>
      if op == "$eq" then EqualTo(x, v)
      else if op == "$ne" then !EqualTo(x, v)
      else if op == "$gt" then Above(x, v)
      else if op == "$gte" then AtLeast(x, v)
      else if op == "$lt" then Below(x, v)
      else if op == "$lte" then AtMost(x, v)
      else if op == "$in" then OneOf(x, v)
      else if op == "$nin" then !OneOf(x, v)
      else w.other(op, v, x)
  }

  predicate FieldAccepts(w: World, f: FieldFilter, x: Option<Value>) {
    match f
    case Equals(v) => EqualTo(x, v)
    case Ops(ops) => forall op :: op in ops ==> OpHolds(w, op, ops[op], x)
  }

  predicate FieldsAccept(w: World, fields: map<string, FieldFilter>, rec: Record) {
    forall f :: f in fields ==> FieldAccepts(w, fields[f], Field(rec, f))
  }

  /** Whether the database selects a record under a filter document. */
  predicate Accepts(w: World, d: Doc, rec: Record) {
    && FieldsAccept(w, d.fields, rec)
    && (forall i :: 0 <= i < |d.ands| ==> Accepts(w, d.ands[i], rec))
    && (d.ors == [] || exists i :: 0 <= i < |d.ors| && Accepts(w, d.ors[i], rec))
  }

  // ---- What conditions mean ----

  predicate Within(x: Option<Value>, pair: Value) {
    pair.List? && |pair.items| == 2 && AtLeast(x, pair.items[0]) && AtMost(x, pair.items[1])
  }

  predicate LikeHolds(p: Value, x: Option<Value>, same: Fold) {
    p.Str? && x.Some? && x.value.Str? && Likes(p.s, x.value.s, same)
  }

  predicate Holds(w: World, c: Condition, rec: Record) {
    var x := Field(rec, c.field);
    if c.op == "=" then EqualTo(x, c.value)
    else if c.op == "null" then EqualTo(x, Null)
    else if c.op == "notNull" then !EqualTo(x, Null)
    else if c.op == "between" then Within(x, c.value)
    else if c.op == "notBetween" then !Within(x, c.value)
    else if c.op == "like" then LikeHolds(c.value, x, EXACT)
    else if c.op == "ilike" then LikeHolds(c.value, x, w.foldCase)
    else OpHolds(w, c.op, Plain(c.value), x)
  }

  predicate AllHold(w: World, cs: seq<Condition>, rec: Record) {
    forall i :: 0 <= i < |cs| ==> Holds(w, cs[i], rec)
  }

  /** What the builders guarantee of a condition's value; buildConditionFilter asserts it. */
  predicate Built(c: Condition) {
    && (c.op in {"between", "notBetween"} ==> c.value.List? && |c.value.items| == 2)
    && (c.op in {"like", "ilike"} ==> c.value.Str?)
  }

  predicate AllBuilt(cs: seq<Condition>) {
    forall i :: 0 <= i < |cs| ==> Built(cs[i])
  }

  /** The subjects of LIKE conditions contain no newline; see Like.LikePreservedIff. */
  predicate LikeSafe(cs: seq<Condition>, rec: Record) {
    forall i :: 0 <= i < |cs| && cs[i].op in {"like", "ilike"} && cs[i].field in rec && rec[cs[i].field].Str? ==>
      '\n' !in rec[cs[i].field].s
  }

  // ---- buildConditionFilter ----

  /** The filter under construction: the merged fields, those of them that hold an operator map made
      here, and the clauses that could not be merged. */
  datatype Partial = Partial(fields: map<string, FieldFilter>, opFields: set<string>, clauses: seq<Doc>)

  predicate PartialOk(p: Partial) {
    forall f :: f in p.opFields ==> f in p.fields && p.fields[f].Ops?
  }

  predicate PartialAccepts(w: World, p: Partial, rec: Record) {
    FieldsAccept(w, p.fields, rec) && forall i :: 0 <= i < |p.clauses| ==> Accepts(w, p.clauses[i], rec)
  }

  function SetEquality(p: Partial, f: string, v: Value): (q: Partial)
    requires PartialOk(p)
    ensures PartialOk(q)
  {
    if f !in p.fields then p.(fields := p.fields[f := Equals(v)])
    else if f in p.opFields && "$eq" !in p.fields[f].ops then
      p.(fields := p.fields[f := Ops(p.fields[f].ops["$eq" := Plain(v)])])
    else p.(clauses := p.clauses + [Doc(map[f := Equals(v)], [], [])])
  }

  function SetOp(p: Partial, f: string, op: string, v: Operand): (q: Partial)
    requires PartialOk(p)
    ensures PartialOk(q)
  {
    if f in p.fields then
      if f in p.opFields && op !in p.fields[f].ops then
        p.(fields := p.fields[f := Ops(p.fields[f].ops[op := v])])
      else p.(clauses := p.clauses + [Doc(map[f := Ops(map[op := v])], [], [])])
    else p.(fields := p.fields[f := Ops(map[op := v])], opFields := p.opFields + {f})
  }

  function AddCondition(p: Partial, c: Condition): (q: Partial)
    requires PartialOk(p) && Built(c)
    ensures PartialOk(q)
  {
    if c.op == "=" then SetEquality(p, c.field, c.value)
    else if c.op == "null" then SetEquality(p, c.field, Null)
    else if c.op == "notNull" then SetOp(p, c.field, "$ne", Plain(Null))
    else if c.op == "between" then
      SetOp(SetOp(p, c.field, "$gte", Plain(c.value.items[0])), c.field, "$lte", Plain(c.value.items[1]))
    else if c.op == "notBetween" then SetOp(p, c.field, "$not", Range(c.value.items[0], c.value.items[1]))
    else if c.op == "like" then SetOp(p, c.field, "$regex", Pattern(LikeToRegex(c.value.s), false))
    else if c.op == "ilike" then SetOp(p, c.field, "$regex", Pattern(LikeToRegex(c.value.s), true))
    else SetOp(p, c.field, c.op, Plain(c.value))
  }

  function Collect(cs: seq<Condition>): (p: Partial)
    requires AllBuilt(cs)
    ensures PartialOk(p)
  {
    if cs == [] then Partial(map[], {}, []) else AddCondition(Collect(cs[..|cs| - 1]), cs[|cs| - 1])
  }

  function ConditionFilter(cs: seq<Condition>): Doc
    requires AllBuilt(cs)
  {
    var p := Collect(cs);
    Doc(p.fields, p.clauses, [])
  }

  method BuildConditionFilter(cs: seq<Condition>) returns (filter: Doc)
    requires AllBuilt(cs)
    ensures filter == ConditionFilter(cs)
  {
    var p := Partial(map[], {}, []);
    var i := 0;
    assert cs[..0] == [];
    while i < |cs|
      invariant i <= |cs|
      invariant p == Collect(cs[..i])
    {
      assert cs[..i + 1][..i] == cs[..i];
      p := AddCondition(p, cs[i]);
      i := i + 1;
    }
    assert cs[..i] == cs;
    filter := Doc(p.fields, p.clauses, []);
  }

  lemma {:induction false} FieldsAcceptUpdate(w: World, fields: map<string, FieldFilter>, f: string, ff: FieldFilter, rec: Record)
    requires f in fields ==> (FieldAccepts(w, ff, Field(rec, f)) ==> FieldAccepts(w, fields[f], Field(rec, f)))
    ensures FieldsAccept(w, fields[f := ff], rec) <==> FieldsAccept(w, fields, rec) && FieldAccepts(w, ff, Field(rec, f))
  {
  }

  lemma {:induction false} SingleAccepts(w: World, f: string, ff: FieldFilter, rec: Record)
    ensures Accepts(w, Doc(map[f := ff], [], []), rec) <==> FieldAccepts(w, ff, Field(rec, f))
  {
    var d := Doc(map[f := ff], [], []);
    assert d.fields[f] == ff;
  }

  lemma {:induction false} ClauseAccepts(w: World, p: Partial, d: Doc, rec: Record)
    ensures PartialAccepts(w, p.(clauses := p.clauses + [d]), rec) <==> PartialAccepts(w, p, rec) && Accepts(w, d, rec)
  {
    var q := p.clauses + [d];
    assert q[|p.clauses|] == d;
    assert forall i :: 0 <= i < |p.clauses| ==> q[i] == p.clauses[i];
  }

  lemma {:induction false} OpsAccept(w: World, ops: map<string, Operand>, op: string, v: Operand, x: Option<Value>)
    requires op !in ops
    ensures FieldAccepts(w, Ops(ops[op := v]), x) <==> FieldAccepts(w, Ops(ops), x) && OpHolds(w, op, v, x)
  {
    var more := ops[op := v];
    assert op in more && more[op] == v;
    assert forall k :: k in ops ==> k in more && more[k] == ops[k];
  }

  lemma {:induction false} OneOp(w: World, op: string, v: Operand, x: Option<Value>)
    ensures FieldAccepts(w, Ops(map[op := v]), x) <==> OpHolds(w, op, v, x)
  {
    assert op in map[op := v];
  }

  /** Merging an equality adds exactly that equality, whatever the field already holds. */
  lemma {:induction false} SetEqualityMeans(w: World, p: Partial, f: string, v: Value, rec: Record)
    requires PartialOk(p)
    ensures PartialAccepts(w, SetEquality(p, f, v), rec) <==> PartialAccepts(w, p, rec) && EqualTo(Field(rec, f), v)
  {
    hide OpHolds, EqualTo, FieldsAccept;
    if f !in p.fields {
      FieldsAcceptUpdate(w, p.fields, f, Equals(v), rec);
    } else if f in p.opFields && "$eq" !in p.fields[f].ops {
      OpsAccept(w, p.fields[f].ops, "$eq", Plain(v), Field(rec, f));
      EqIsEquality(w, v, Field(rec, f));
      FieldsAcceptUpdate(w, p.fields, f, Ops(p.fields[f].ops["$eq" := Plain(v)]), rec);
      Already(w, p.fields, f, rec);
    } else {
      ClauseAccepts(w, p, Doc(map[f := Equals(v)], [], []), rec);
      SingleAccepts(w, f, Equals(v), rec);
    }
  }

  lemma {:induction false} EqIsEquality(w: World, v: Value, x: Option<Value>)
    ensures OpHolds(w, "$eq", Plain(v), x) <==> EqualTo(x, v)
  {
  }

  lemma {:induction false} Already(w: World, fields: map<string, FieldFilter>, f: string, rec: Record)
    requires f in fields
    ensures FieldsAccept(w, fields, rec) ==> FieldAccepts(w, fields[f], Field(rec, f))
  {
  }

  /** Merging an operator adds exactly that operator. */
  lemma {:induction false} SetOpMeans(w: World, p: Partial, f: string, op: string, v: Operand, rec: Record)
    requires PartialOk(p)
    ensures PartialOk(SetOp(p, f, op, v))
    ensures PartialAccepts(w, SetOp(p, f, op, v), rec) <==> PartialAccepts(w, p, rec) && OpHolds(w, op, v, Field(rec, f))
  {
    hide OpHolds, FieldsAccept;
    OneOp(w, op, v, Field(rec, f));
    if f !in p.fields {
      FieldsAcceptUpdate(w, p.fields, f, Ops(map[op := v]), rec);
    } else if f in p.opFields && op !in p.fields[f].ops {
      OpsAccept(w, p.fields[f].ops, op, v, Field(rec, f));
      FieldsAcceptUpdate(w, p.fields, f, Ops(p.fields[f].ops[op := v]), rec);
      Already(w, p.fields, f, rec);
    } else {
      ClauseAccepts(w, p, Doc(map[f := Ops(map[op := v])], [], []), rec);
      SingleAccepts(w, f, Ops(map[op := v]), rec);
    }
  }

  lemma {:induction false} AddConditionMeans(w: World, p: Partial, c: Condition, rec: Record)
    requires PartialOk(p) && Built(c) && LikeSafe([c], rec)
    ensures PartialAccepts(w, AddCondition(p, c), rec) <==> PartialAccepts(w, p, rec) && Holds(w, c, rec)
  {
    hide PartialAccepts, SetOp, SetEquality, EqualTo, AtLeast, AtMost, LikeToRegex, Likes, RegexMatches, OneOf;
    assert [c][0] == c;
    var x := Field(rec, c.field);
    if c.op == "=" {
      SetEqualityMeans(w, p, c.field, c.value, rec);
    } else if c.op == "null" {
      SetEqualityMeans(w, p, c.field, Null, rec);
    } else if c.op == "notNull" {
      SetOpMeans(w, p, c.field, "$ne", Plain(Null), rec);
    } else if c.op == "between" {
      SetOpMeans(w, p, c.field, "$gte", Plain(c.value.items[0]), rec);
      SetOpMeans(w, SetOp(p, c.field, "$gte", Plain(c.value.items[0])), c.field, "$lte", Plain(c.value.items[1]), rec);
    } else if c.op == "notBetween" {
      SetOpMeans(w, p, c.field, "$not", Range(c.value.items[0], c.value.items[1]), rec);
    } else if c.op == "like" || c.op == "ilike" {
      var same := if c.op == "ilike" then w.foldCase else EXACT;
      SetOpMeans(w, p, c.field, "$regex", Pattern(LikeToRegex(c.value.s), c.op == "ilike"), rec);
      if x.Some? && x.value.Str? {
        LikeIsRegex(c.value.s, x.value.s, same);
      }
    } else {
      SetOpMeans(w, p, c.field, c.op, Plain(c.value), rec);
    }
  }

  lemma {:induction false} CollectMeans(w: World, cs: seq<Condition>, rec: Record)
    requires AllBuilt(cs) && LikeSafe(cs, rec)
    ensures PartialAccepts(w, Collect(cs), rec) <==> AllHold(w, cs, rec)
  {
    hide Holds, AddCondition;
    if cs != [] {
      var n := |cs| - 1;
      assert forall i :: 0 <= i < n ==> cs[..n][i] == cs[i];
      CollectMeans(w, cs[..n], rec);
      AddConditionMeans(w, Collect(cs[..n]), cs[n], rec);
      assert AllHold(w, cs, rec) <==> AllHold(w, cs[..n], rec) && Holds(w, cs[n], rec);
    }
  }

  /** The filter document built from conditions accepts exactly the records on which all of them hold;
      repeated and clashing conditions on one field are never lost. */
  lemma {:induction false} ConditionFilterMeans(w: World, cs: seq<Condition>, rec: Record)
    requires AllBuilt(cs) && LikeSafe(cs, rec)
    ensures Accepts(w, ConditionFilter(cs), rec) <==> AllHold(w, cs, rec)
  {
    CollectMeans(w, cs, rec);
  }

  // ---- buildFilter ----

  predicate GroupsBuilt(groups: seq<seq<Condition>>) {
    forall i :: 0 <= i < |groups| ==> AllBuilt(groups[i])
  }

  predicate SomeGroupHolds(w: World, groups: seq<seq<Condition>>, rec: Record) {
    exists i :: 0 <= i < |groups| && groups[i] != [] && AllHold(w, groups[i], rec)
  }

  predicate NoGroup(groups: seq<seq<Condition>>) {
    forall i :: 0 <= i < |groups| ==> groups[i] == []
  }

  /** What a query selects: all records when it has no condition at all, and otherwise those on which
      the main conditions (if there are any) or some or-group hold. */
  predicate Selects(w: World, conditions: seq<Condition>, orGroups: seq<seq<Condition>>, rec: Record) {
    if conditions == [] && NoGroup(orGroups) then true
    else (conditions != [] && AllHold(w, conditions, rec)) || SomeGroupHolds(w, orGroups, rec)
  }

  function GroupFilters(groups: seq<seq<Condition>>): seq<Doc>
    requires GroupsBuilt(groups)
  {
    if groups == [] then []
    else
      var n := |groups| - 1;
      GroupFilters(groups[..n]) + (if groups[n] == [] then [] else [ConditionFilter(groups[n])])
  }

  function QueryFilter(conditions: seq<Condition>, orGroups: seq<seq<Condition>>): Doc
    requires AllBuilt(conditions) && GroupsBuilt(orGroups)
  {
    var base := ConditionFilter(conditions);
    var clauses := (if conditions == [] then [] else [base]) + GroupFilters(orGroups);
    if orGroups == [] || clauses == [] then base
    else if |clauses| == 1 then clauses[0]
    else Doc(map[], [], clauses)
  }

  method BuildFilter(conditions: seq<Condition>, orGroups: seq<seq<Condition>>) returns (filter: Doc)
    requires AllBuilt(conditions) && GroupsBuilt(orGroups)
    ensures filter == QueryFilter(conditions, orGroups)
  {
    var base := BuildConditionFilter(conditions);
    if |orGroups| == 0 {
      return base;
    }
    var orClauses := [];
    if |conditions| > 0 {
      orClauses := orClauses + [base];
    }
    ghost var first := orClauses;
    var i := 0;
    assert orGroups[..0] == [];
    while i < |orGroups|
      invariant i <= |orGroups|
      invariant orClauses == first + GroupFilters(orGroups[..i])
    {
      assert orGroups[..i + 1][..i] == orGroups[..i];
      if |orGroups[i]| != 0 {
        var clause := BuildConditionFilter(orGroups[i]);
        orClauses := orClauses + [clause];
      }
      i := i + 1;
    }
    assert orGroups[..i] == orGroups;
    if |orClauses| == 0 {
      return base;
    }
    if |orClauses| == 1 {
      return orClauses[0];
    }
    return Doc(map[], [], orClauses);
  }

  predicate AnyAccepts(w: World, ds: seq<Doc>, rec: Record) {
    exists i :: 0 <= i < |ds| && Accepts(w, ds[i], rec)
  }

  lemma {:induction false} AnyAcceptsConcat(w: World, a: seq<Doc>, b: seq<Doc>, rec: Record)
    ensures AnyAccepts(w, a + b, rec) <==> AnyAccepts(w, a, rec) || AnyAccepts(w, b, rec)
  {
    hide Accepts;
    var c := a + b;
    if i :| 0 <= i < |a| && Accepts(w, a[i], rec) {
      assert c[i] == a[i];
    }
    if i :| 0 <= i < |b| && Accepts(w, b[i], rec) {
      assert c[|a| + i] == b[i];
    }
  }

  lemma {:induction false} AnyAcceptsOne(w: World, d: Doc, rec: Record)
    ensures AnyAccepts(w, [d], rec) <==> Accepts(w, d, rec)
  {
    hide Accepts;
    assert [d][0] == d;
  }

  predicate GroupsSafe(groups: seq<seq<Condition>>, rec: Record) {
    forall i :: 0 <= i < |groups| ==> LikeSafe(groups[i], rec)
  }

  lemma {:induction false} GroupFiltersMean(w: World, groups: seq<seq<Condition>>, rec: Record)
    requires GroupsBuilt(groups) && GroupsSafe(groups, rec)
    ensures AnyAccepts(w, GroupFilters(groups), rec) <==> SomeGroupHolds(w, groups, rec)
    ensures GroupFilters(groups) == [] <==> NoGroup(groups)
  {
    hide Accepts, AllHold, LikeSafe, ConditionFilter;
    if groups != [] {
      var n := |groups| - 1;
      var rest, last := groups[..n], groups[n];
      assert groups == rest + [last];
      GroupFiltersMean(w, rest, rec);
      assert SomeGroupHolds(w, groups, rec) <==> SomeGroupHolds(w, rest, rec) || (last != [] && AllHold(w, last, rec)) by {
        if i :| 0 <= i < n && rest[i] != [] && AllHold(w, rest[i], rec) {
          assert groups[i] == rest[i];
        }
      }
      if last != [] {
        ConditionFilterMeans(w, last, rec);
        AnyAcceptsConcat(w, GroupFilters(rest), [ConditionFilter(last)], rec);
        AnyAcceptsOne(w, ConditionFilter(last), rec);
        assert groups[n] != [];
      } else {
        assert GroupFilters(groups) == GroupFilters(rest);
      }
    }
  }

  lemma {:induction false} OrAccepts(w: World, clauses: seq<Doc>, rec: Record)
    requires clauses != []
    ensures Accepts(w, Doc(map[], [], clauses), rec) <==> AnyAccepts(w, clauses, rec)
  {
  }

  /** Filter compilation preserves meaning: the built document accepts exactly the records the query
      selects; or-groups without conditions are no-ops. */
  lemma {:induction false} QueryFilterMeans(w: World, conditions: seq<Condition>, orGroups: seq<seq<Condition>>, rec: Record)
    requires AllBuilt(conditions) && GroupsBuilt(orGroups)
    requires LikeSafe(conditions, rec) && GroupsSafe(orGroups, rec)
    ensures Accepts(w, QueryFilter(conditions, orGroups), rec) <==> Selects(w, conditions, orGroups, rec)
  {
    hide Accepts, LikeSafe, GroupsSafe, ConditionFilter, SomeGroupHolds, GroupFilters, AllHold, AnyAccepts, NoGroup;
    ConditionFilterMeans(w, conditions, rec);
    GroupFiltersMean(w, orGroups, rec);
    QueryAccepts(w, conditions, orGroups, rec);
    var first := if conditions == [] then [] else [ConditionFilter(conditions)];
    AnyAcceptsConcat(w, first, GroupFilters(orGroups), rec);
    AnyAcceptsOne(w, ConditionFilter(conditions), rec);
    NothingAccepts(w, rec);
    NothingHolds(w, orGroups, rec);
  }

  /** The built document accepts what one of its clauses accepts, or, without clauses, what no condition forbids. */
  lemma {:induction false} QueryAccepts(w: World, conditions: seq<Condition>, orGroups: seq<seq<Condition>>, rec: Record)
    requires AllBuilt(conditions) && GroupsBuilt(orGroups)
    ensures var clauses := (if conditions == [] then [] else [ConditionFilter(conditions)]) + GroupFilters(orGroups);
            Accepts(w, QueryFilter(conditions, orGroups), rec) <==>
              if orGroups == [] || clauses == [] then Accepts(w, ConditionFilter(conditions), rec) else AnyAccepts(w, clauses, rec)
  {
    hide Accepts, ConditionFilter, GroupFilters, AnyAccepts;
    var clauses := (if conditions == [] then [] else [ConditionFilter(conditions)]) + GroupFilters(orGroups);
    if clauses != [] {
      OrAccepts(w, clauses, rec);
      AnyAcceptsOne(w, clauses[0], rec);
      if |clauses| == 1 {
        assert clauses == [clauses[0]];
      }
    }
  }

  lemma {:induction false} NothingAccepts(w: World, rec: Record)
    ensures !AnyAccepts(w, [], rec) && AllHold(w, [], rec)
  {
  }

  lemma {:induction false} NothingHolds(w: World, orGroups: seq<seq<Condition>>, rec: Record)
    ensures NoGroup([])
    ensures NoGroup(orGroups) ==> !SomeGroupHolds(w, orGroups, rec)
  {
  }
}
