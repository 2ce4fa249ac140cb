/** Grouped aggregation: the pipeline a grouped query is compiled to, and what both of them mean. */
module GroupPipeline {
  import opened Options
  import opened Like
  import opened Filter

  /** An accumulator column; an empty field means "count documents". */
  datatype AggSpec = AggSpec(alias: string, op: string, field: string)

  /** What a grouped query asks for. */
  datatype Plan = Plan(
    conditions: seq<Condition>, orGroups: seq<seq<Condition>>, fields: seq<string>, groupFields: seq<string>,
    havingConds: seq<Condition>, aggSpecs: seq<AggSpec>, sort: seq<(string, int)>, skip: int, limit: int)

  // ---- Pipelines ----

  datatype IdExpr = OnePath(path: string) | KeyPaths(paths: map<string, string>)

  datatype Accumulator = CountOne | Over(op: string, path: string)

  /** An entry of a $group document: the key expression under "_id", an accumulator elsewhere. */
  datatype GroupExpr = KeyedBy(id: IdExpr) | Acc(acc: Accumulator)

  datatype Column = Hidden | Kept | PathOf(path: string)

  datatype Stage =
    | Match(filter: Doc)
    | Group(spec: map<string, GroupExpr>)
    | Project(columns: map<string, Column>)
    | Sort(keys: seq<(string, int)>)
    | Skip(n: int)
    | Limit(n: int)

  datatype Error = GroupByRequired | SelectCombined | DuplicateKey | AliasClash | UnknownHaving | UnknownSort

  datatype Result = Pipeline(stages: seq<Stage>) | Failed(error: Error)

  /** Dotted paths are flattened with underscores. */
  function GroupKeyName(field: string): string {
    ReplaceAll(field, '.', "_")
  }

  function KeyNames(fields: seq<string>): seq<string> {
    seq(|fields|, i requires 0 <= i < |fields| => GroupKeyName(fields[i]))
  }

  function Aliases(specs: seq<AggSpec>): seq<string> {
    seq(|specs|, i requires 0 <= i < |specs| => specs[i].alias)
  }

  predicate NoRepeats<T(==)>(s: seq<T>) {
    forall i, j :: 0 <= i < j < |s| ==> s[i] != s[j]
  }

  /** The columns of a result row: group keys and aliases. */
  function ResultColumns(p: Plan): seq<string> {
    KeyNames(p.groupFields) + Aliases(p.aggSpecs)
  }

  function Check(p: Plan): Option<Error> {
    var cols := ResultColumns(p);
    if p.groupFields == [] then Some(GroupByRequired)
    else if p.fields != [] then Some(SelectCombined)
    else if !NoRepeats(KeyNames(p.groupFields)) then Some(DuplicateKey)
    else if !NoRepeats(cols) then Some(AliasClash)
    else if exists i :: 0 <= i < |p.havingConds| && p.havingConds[i].field !in cols then Some(UnknownHaving)
    else if exists i :: 0 <= i < |p.sort| && p.sort[i].0 !in cols then Some(UnknownSort)
    else None
  }

  function IdPaths(fields: seq<string>): map<string, string> {
    if fields == [] then map[]
    else var n := |fields| - 1; IdPaths(fields[..n])[GroupKeyName(fields[n]) := "$" + fields[n]]
  }

  function IdOf(fields: seq<string>): IdExpr {
    if |fields| == 1 then OnePath("$" + fields[0]) else KeyPaths(IdPaths(fields))
  }

  function AccumulatorOf(spec: AggSpec): Accumulator {
    if spec.field == "" then CountOne else Over(spec.op, "$" + spec.field)
  }

  function GroupSpec(id: IdExpr, specs: seq<AggSpec>): map<string, GroupExpr> {
    if specs == [] then map["_id" := KeyedBy(id)]
    else var n := |specs| - 1; GroupSpec(id, specs[..n])[specs[n].alias := Acc(AccumulatorOf(specs[n]))]
  }

  function KeyColumns(fields: seq<string>): map<string, Column> {
    if fields == [] then map["_id" := Hidden]
    else var n := |fields| - 1; KeyColumns(fields[..n])[GroupKeyName(fields[n]) := PathOf("$_id." + GroupKeyName(fields[n]))]
  }

  function Columns(base: map<string, Column>, specs: seq<AggSpec>): map<string, Column> {
    if specs == [] then base
    else var n := |specs| - 1; Columns(base, specs[..n])[specs[n].alias := Kept]
  }

  function ProjectColumns(fields: seq<string>, specs: seq<AggSpec>): map<string, Column> {
    Columns(if |fields| == 1 then map["_id" := Hidden][GroupKeyName(fields[0]) := PathOf("$_id")] else KeyColumns(fields), specs)
  }

  predicate EmptyDoc(d: Doc) {
    d.fields == map[] && d.ands == [] && d.ors == []
  }

  /** The stages up to and including $project. */
  function Front(p: Plan): seq<Stage>
    requires AllBuilt(p.conditions) && GroupsBuilt(p.orGroups)
  {
    var filter := QueryFilter(p.conditions, p.orGroups);
    (if EmptyDoc(filter) then [] else [Match(filter)])
    + [Group(GroupSpec(IdOf(p.groupFields), p.aggSpecs)), Project(ProjectColumns(p.groupFields, p.aggSpecs))]
  }

  function Back(p: Plan): seq<Stage>
    requires AllBuilt(p.havingConds)
  {
    var having := ConditionFilter(p.havingConds);
    (if EmptyDoc(having) then [] else [Match(having)])
    + (if p.sort == [] then [] else [Sort(p.sort)])
    + (if p.skip > 0 then [Skip(p.skip)] else [])
    + (if p.limit > 0 then [Limit(p.limit)] else [])
  }

  predicate PlanBuilt(p: Plan) {
    AllBuilt(p.conditions) && GroupsBuilt(p.orGroups) && AllBuilt(p.havingConds)
  }

  ghost predicate SetOf(keys: set<string>, names: seq<string>) {
    forall k :: k in keys <==> k in names
  }

  method CollectKeys(fields: seq<string>) returns (ok: bool, keys: set<string>)
    ensures ok <==> NoRepeats(KeyNames(fields))
    ensures ok ==> SetOf(keys, KeyNames(fields))
  {
    ghost var names := KeyNames(fields);
    keys := {};
    for i := 0 to |fields|
      invariant NoRepeats(names[..i]) && SetOf(keys, names[..i])
    {
      var key := GroupKeyName(fields[i]);
      assert names[i] == key;
      if key in keys {
        Repeats(names, i);
        return false, {};
      }
      keys := keys + {key};
      assert names[..i + 1] == names[..i] + [key];
    }
    assert names[..|fields|] == names;
    ok := true;
  }

  method CollectAliases(keys: set<string>, ghost names: seq<string>, specs: seq<AggSpec>) returns (ok: bool, cols: set<string>)
    requires NoRepeats(names) && SetOf(keys, names)
    ensures ok <==> NoRepeats(names + Aliases(specs))
    ensures ok ==> SetOf(cols, names + Aliases(specs))
  {
    ghost var all := names + Aliases(specs);
    cols := keys;
    assert all[..|names|] == names;
    for i := 0 to |specs|
      invariant NoRepeats(all[..|names| + i]) && SetOf(cols, all[..|names| + i]) && keys <= cols
    {
      var alias := specs[i].alias;
      assert all[|names| + i] == alias;
      if alias in keys || alias in cols {
        Repeats(all, |names| + i);
        return false, {};
      }
      cols := cols + {alias};
      assert all[..|names| + (i + 1)] == all[..|names| + i] + [alias];
    }
    assert all[..|names| + |specs|] == all;
    ok := true;
  }

  method BuildGroupPipeline(p: Plan) returns (r: Result)
    requires PlanBuilt(p)
    ensures r == match Check(p) case Some(e) => Failed(e) case None => Pipeline(Front(p) + Back(p))
  {
    hide Front, Back, KeyNames, Aliases, NoRepeats;
    if |p.groupFields| == 0 {
      return Failed(GroupByRequired);
    }
    if |p.fields| > 0 {
      return Failed(SelectCombined);
    }
    var ok, keys := CollectKeys(p.groupFields);
    if !ok {
      return Failed(DuplicateKey);
    }
    var distinct, resultCols := CollectAliases(keys, KeyNames(p.groupFields), p.aggSpecs);
    if !distinct {
      return Failed(AliasClash);
    }
    for i := 0 to |p.havingConds|
      invariant forall j :: 0 <= j < i ==> p.havingConds[j].field in ResultColumns(p)
    {
      if p.havingConds[i].field !in resultCols {
        return Failed(UnknownHaving);
      }
    }
    for i := 0 to |p.sort|
      invariant forall j :: 0 <= j < i ==> p.sort[j].0 in ResultColumns(p)
    {
      if p.sort[i].0 !in resultCols {
        return Failed(UnknownSort);
      }
    }
    var front := BuildFront(p);
    var back := BuildBack(p);
    return Pipeline(front + back);
  }

  lemma {:induction false} Repeats<T>(s: seq<T>, i: nat)
    requires i < |s| && s[i] in s[..i]
    ensures !NoRepeats(s)
  {
    var j :| 0 <= j < i && s[..i][j] == s[i];
    assert s[j] == s[i];
  }

  method BuildFront(p: Plan) returns (stages: seq<Stage>)
    requires PlanBuilt(p) && p.groupFields != []
    ensures stages == Front(p)
  {
    hide QueryFilter, EmptyDoc, IdPaths, GroupSpec, ProjectColumns;
    stages := [];
    var filter := BuildFilter(p.conditions, p.orGroups);
    if !EmptyDoc(filter) {
      stages := [Match(filter)];
    }
    var id := OnePath("$" + p.groupFields[0]);
    if |p.groupFields| != 1 {
      var paths := BuildIdPaths(p.groupFields);
      id := KeyPaths(paths);
    }
    var group := BuildGroup(id, p.aggSpecs);
    var project := BuildProject(p.groupFields, p.aggSpecs);
    stages := stages + [Group(group), Project(project)];
  }

  method BuildBack(p: Plan) returns (stages: seq<Stage>)
    requires PlanBuilt(p)
    ensures stages == Back(p)
  {
    hide ConditionFilter, EmptyDoc;
    stages := [];
    var having := BuildConditionFilter(p.havingConds);
    if !EmptyDoc(having) {
      stages := [Match(having)];
    }
    if |p.sort| > 0 {
      stages := stages + [Sort(p.sort)];
    }
    if p.skip > 0 {
      stages := stages + [Skip(p.skip)];
    }
    if p.limit > 0 {
      stages := stages + [Limit(p.limit)];
    }
  }

  method BuildIdPaths(fields: seq<string>) returns (id: map<string, string>)
    ensures id == IdPaths(fields)
  {
    id := map[];
    for i := 0 to |fields|
      invariant id == IdPaths(fields[..i])
    {
      assert fields[..i + 1][..i] == fields[..i];
      id := id[GroupKeyName(fields[i]) := "$" + fields[i]];
    }
    assert fields[..|fields|] == fields;
  }

  method BuildGroup(id: IdExpr, specs: seq<AggSpec>) returns (group: map<string, GroupExpr>)
    ensures group == GroupSpec(id, specs)
  {
    group := map["_id" := KeyedBy(id)];
    for i := 0 to |specs|
      invariant group == GroupSpec(id, specs[..i])
    {
      assert specs[..i + 1][..i] == specs[..i];
      if specs[i].field == "" {
        group := group[specs[i].alias := Acc(CountOne)];
      } else {
        group := group[specs[i].alias := Acc(Over(specs[i].op, "$" + specs[i].field))];
      }
    }
    assert specs[..|specs|] == specs;
  }

  method BuildProject(fields: seq<string>, specs: seq<AggSpec>) returns (project: map<string, Column>)
    ensures project == ProjectColumns(fields, specs)
  {
    project := map["_id" := Hidden];
    if |fields| == 1 {
      project := project[GroupKeyName(fields[0]) := PathOf("$_id")];
    } else {
      for i := 0 to |fields|
        invariant project == KeyColumns(fields[..i])
      {
        assert fields[..i + 1][..i] == fields[..i];
        var key := GroupKeyName(fields[i]);
        project := project[key := PathOf("$_id." + key)];
      }
      assert fields[..|fields|] == fields;
    }
    ghost var base := project;
    for i := 0 to |specs|
      invariant project == Columns(base, specs[..i])
    {
      assert specs[..i + 1][..i] == specs[..i];
      project := project[specs[i].alias := Kept];
    }
    assert specs[..|specs|] == specs;
  }

  // ---- What the stages do ----

  /** The "_id" of a grouped document: one value, or a sub-document. */
  datatype Id = One(v: Value) | Sub(values: map<string, Value>)

  datatype Grouped = Grouped(id: Id, cols: map<string, Value>)

  /** A field path expression "$path" on a document. */
  function PathValue(path: string, rec: Record): Option<Value> {
    if path != [] && path[0] == '$' then Field(rec, path[1..]) else None
  }

  /** A missing value is null for a single key, and leaves no entry in a composite one. */
  function IdValue(id: IdExpr, rec: Record): Id {
    match id
    case OnePath(path) => One(match PathValue(path, rec) case Some(v) => v case None => Null)
    case KeyPaths(paths) => Sub(map k | k in paths && PathValue(paths[k], rec).Some? :: PathValue(paths[k], rec).value)
  }

  /** How an operator folds the values a path has over the documents of a group. */
  type Folding = (string, seq<Option<Value>>) -> Value

  function Values(path: string, docs: seq<Record>): seq<Option<Value>> {
    seq(|docs|, i requires 0 <= i < |docs| => PathValue(path, docs[i]))
  }

  function Accumulate(fold: Folding, a: Accumulator, docs: seq<Record>): Value {
    match a
    case CountOne => Num(|docs| as real)
    case Over(op, path) => fold(op, Values(path, docs))
  }

  /** The different elements of a sequence, in order of first occurrence. */
  function Uniq<T(==)>(s: seq<T>): seq<T> {
    if s == [] then []
    else
      var rest := Uniq(s[..|s| - 1]);
      if s[|s| - 1] in rest then rest else rest + [s[|s| - 1]]
  }

  function Ids(id: IdExpr, docs: seq<Record>): seq<Id> {
    seq(|docs|, i requires 0 <= i < |docs| => IdValue(id, docs[i]))
  }

  function Members(id: IdExpr, docs: seq<Record>, v: Id): seq<Record> {
    if docs == [] then []
    else
      var n := |docs| - 1;
      Members(id, docs[..n], v) + (if IdValue(id, docs[n]) == v then [docs[n]] else [])
  }

  function AccsOf(spec: map<string, GroupExpr>): map<string, Accumulator> {
    map a | a in spec && spec[a].Acc? :: spec[a].acc
  }

  /** $group: one document per different id. The order of the groups is the server's; here it is that
      of first occurrence. A specification without a key expression is not understood. */
  function EvalGroup(fold: Folding, spec: map<string, GroupExpr>, docs: seq<Record>): seq<Grouped> {
    if "_id" in spec && spec["_id"].KeyedBy? then
      var id := spec["_id"].id;
      var ids, accs := Uniq(Ids(id, docs)), AccsOf(spec);
      seq(|ids|, i requires 0 <= i < |ids| =>
        Grouped(ids[i], map a | a in accs :: Accumulate(fold, accs[a], Members(id, docs, ids[i]))))
    else []
  }

  function IdPath(path: string, id: Id): Option<Value> {
    match id
    case One(v) => if path == "$_id" then Some(v) else None
    case Sub(values) => if |path| >= 5 && path[..5] == "$_id." && path[5..] in values then Some(values[path[5..]]) else None
  }

  function ColumnValue(c: Column, name: string, g: Grouped): Option<Value> {
    match c
    case Hidden => None
    case Kept => if name in g.cols then Some(g.cols[name]) else None
    case PathOf(path) => IdPath(path, g.id)
  }

  function EvalProject(cols: map<string, Column>, g: Grouped): Record {
    map c | c in cols && ColumnValue(cols[c], c, g).Some? :: ColumnValue(cols[c], c, g).value
  }

  function Filtered(w: World, d: Doc, docs: seq<Record>): seq<Record> {
    if docs == [] then []
    else
      var n := |docs| - 1;
      Filtered(w, d, docs[..n]) + (if Accepts(w, d, docs[n]) then [docs[n]] else [])
  }

  /** Running the stages up to $project over a collection. */
  function EvalFront(w: World, fold: Folding, stages: seq<Stage>, docs: seq<Record>): seq<Record> {
    if |stages| == 3 && stages[0].Match? then EvalFront(w, fold, stages[1..], Filtered(w, stages[0].filter, docs))
    else if |stages| == 2 && stages[0].Group? && stages[1].Project? then
      var groups := EvalGroup(fold, stages[0].spec, docs);
      seq(|groups|, i requires 0 <= i < |groups| => EvalProject(stages[1].columns, groups[i]))
    else []
  }

  // ---- What a grouped query means ----

  function KeyTuple(fields: seq<string>, rec: Record): seq<Value>
    requires forall i :: 0 <= i < |fields| ==> fields[i] in rec
  {
    seq(|fields|, i requires 0 <= i < |fields| => rec[fields[i]])
  }

  ghost predicate KeysPresent(fields: seq<string>, docs: seq<Record>) {
    forall d, i :: 0 <= d < |docs| && 0 <= i < |fields| ==> fields[i] in docs[d]
  }

  function Tuples(fields: seq<string>, docs: seq<Record>): seq<seq<Value>>
    requires KeysPresent(fields, docs)
  {
    seq(|docs|, i requires 0 <= i < |docs| => KeyTuple(fields, docs[i]))
  }

  /** The documents with a given key tuple, in order. */
  function Sharing(fields: seq<string>, docs: seq<Record>, t: seq<Value>): seq<Record>
    requires KeysPresent(fields, docs)
  {
    if docs == [] then []
    else
      var n := |docs| - 1;
      Sharing(fields, docs[..n], t) + (if KeyTuple(fields, docs[n]) == t then [docs[n]] else [])
  }

  /** The id that stands for a key tuple. */
  function TupleId(fields: seq<string>, t: seq<Value>): Id
    requires |t| == |fields|
  {
    if |fields| == 1 then One(t[0]) else Sub(TupleMap(fields, t))
  }

  function TupleMap(fields: seq<string>, t: seq<Value>): map<string, Value>
    requires |t| == |fields|
  {
    if fields == [] then map[]
    else var n := |fields| - 1; TupleMap(fields[..n], t[..n])[GroupKeyName(fields[n]) := t[n]]
  }

  // ---- Keys: ids stand for key tuples, one for one ----

  lemma {:induction false} IdPathsAt(fields: seq<string>)
    requires NoRepeats(KeyNames(fields))
    ensures forall k :: k in IdPaths(fields) <==> k in KeyNames(fields)
    ensures forall i :: 0 <= i < |fields| ==> GroupKeyName(fields[i]) in IdPaths(fields) && IdPaths(fields)[GroupKeyName(fields[i])] == "$" + fields[i]
  {
    if fields != [] {
      var n := |fields| - 1;
      var names := KeyNames(fields);
      assert KeyNames(fields[..n]) == names[..n];
      assert names == names[..n] + [names[n]];
      IdPathsAt(fields[..n]);
      forall i | 0 <= i < |fields| ensures GroupKeyName(fields[i]) in IdPaths(fields) && IdPaths(fields)[GroupKeyName(fields[i])] == "$" + fields[i] {
        if i < n {
          assert fields[..n][i] == fields[i] && names[i] != names[n];
        }
      }
    }
  }

  lemma {:induction false} TupleMapAt(fields: seq<string>, t: seq<Value>)
    requires NoRepeats(KeyNames(fields)) && |t| == |fields|
    ensures forall k :: k in TupleMap(fields, t) <==> k in KeyNames(fields)
    ensures forall i :: 0 <= i < |fields| ==> GroupKeyName(fields[i]) in TupleMap(fields, t) && TupleMap(fields, t)[GroupKeyName(fields[i])] == t[i]
  {
    if fields != [] {
      var n := |fields| - 1;
      var names := KeyNames(fields);
      assert KeyNames(fields[..n]) == names[..n];
      assert names == names[..n] + [names[n]];
      TupleMapAt(fields[..n], t[..n]);
      forall i | 0 <= i < |fields| ensures GroupKeyName(fields[i]) in TupleMap(fields, t) && TupleMap(fields, t)[GroupKeyName(fields[i])] == t[i] {
        if i < n {
          assert fields[..n][i] == fields[i] && names[i] != names[n];
        }
      }
    }
  }

  /** The id the server computes for a document is the one that stands for its key tuple. */
  lemma {:induction false} IdIsTupleId(fields: seq<string>, rec: Record)
    requires fields != [] && NoRepeats(KeyNames(fields))
    requires forall i :: 0 <= i < |fields| ==> fields[i] in rec
    ensures IdValue(IdOf(fields), rec) == TupleId(fields, KeyTuple(fields, rec))
  {
    var t := KeyTuple(fields, rec);
    if |fields| > 1 {
      hide IdPaths, TupleMap;
      IdPathsAt(fields);
      TupleMapAt(fields, t);
      var paths, tm := IdPaths(fields), TupleMap(fields, t);
      forall k | k in paths ensures PathValue(paths[k], rec).Some? && k in tm && PathValue(paths[k], rec).value == tm[k] {
        var i :| 0 <= i < |fields| && KeyNames(fields)[i] == k;
        assert PathValue("$" + fields[i], rec) == Field(rec, fields[i]);
      }
      assert IdValue(KeyPaths(paths), rec).values == tm;
    }
  }

  lemma {:induction false} TupleIdInjective(fields: seq<string>, t: seq<Value>, u: seq<Value>)
    requires fields != [] && NoRepeats(KeyNames(fields)) && |t| == |u| == |fields|
    requires TupleId(fields, t) == TupleId(fields, u)
    ensures t == u
  {
    TupleMapAt(fields, t);
    TupleMapAt(fields, u);
    hide TupleMap;
    if |fields| > 1 {
      forall i | 0 <= i < |fields| ensures t[i] == u[i] {
        assert TupleMap(fields, t)[GroupKeyName(fields[i])] == t[i];
        assert TupleMap(fields, u)[GroupKeyName(fields[i])] == u[i];
      }
    }
  }

  lemma {:induction false} UniqElements<T>(s: seq<T>)
    ensures forall x :: x in Uniq(s) <==> x in s
    ensures NoRepeats(Uniq(s))
  {
    if s != [] {
      var n := |s| - 1;
      assert s == s[..n] + [s[n]];
      UniqElements(s[..n]);
    }
  }

  /** Different ids are different key tuples, in the same order of first occurrence. */
  lemma {:induction false} UniqIds(fields: seq<string>, docs: seq<Record>)
    requires fields != [] && NoRepeats(KeyNames(fields)) && KeysPresent(fields, docs)
    ensures var ids, ts := Uniq(Ids(IdOf(fields), docs)), Uniq(Tuples(fields, docs));
            && |ids| == |ts|
            && forall i :: 0 <= i < |ts| ==> |ts[i]| == |fields| && ids[i] == TupleId(fields, ts[i])
  {
    if docs != [] {
      var n := |docs| - 1;
      var ids, ts := Ids(IdOf(fields), docs), Tuples(fields, docs);
      assert ids[..n] == Ids(IdOf(fields), docs[..n]) && ts[..n] == Tuples(fields, docs[..n]);
      UniqIds(fields, docs[..n]);
      IdIsTupleId(fields, docs[n]);
      hide TupleId, KeyNames, IdValue;
      var uids, uts := Uniq(ids[..n]), Uniq(ts[..n]);
      if ts[n] in uts {
        var i :| 0 <= i < |uts| && uts[i] == ts[n];
        assert uids[i] == ids[n];
      } else if i :| 0 <= i < |uids| && uids[i] == ids[n] {
        TupleIdInjective(fields, uts[i], ts[n]);
      }
    }
  }

  lemma {:induction false} MembersShare(fields: seq<string>, docs: seq<Record>, t: seq<Value>)
    requires fields != [] && NoRepeats(KeyNames(fields)) && KeysPresent(fields, docs) && |t| == |fields|
    ensures Members(IdOf(fields), docs, TupleId(fields, t)) == Sharing(fields, docs, t)
  {
    if docs != [] {
      var n := |docs| - 1;
      MembersShare(fields, docs[..n], t);
      IdIsTupleId(fields, docs[n]);
      hide TupleId, KeyNames, IdValue;
      if IdValue(IdOf(fields), docs[n]) == TupleId(fields, t) {
        TupleIdInjective(fields, KeyTuple(fields, docs[n]), t);
      }
    }
  }

  // ---- Columns ----

  lemma {:induction false} ColumnsAt(base: map<string, Column>, specs: seq<AggSpec>, c: string)
    ensures c in Columns(base, specs) <==> c in base || c in Aliases(specs)
    ensures c in Aliases(specs) ==> Columns(base, specs)[c] == Kept
    ensures c !in Aliases(specs) && c in base ==> Columns(base, specs)[c] == base[c]
  {
    if specs != [] {
      var n := |specs| - 1;
      ColumnsAt(base, specs[..n], c);
      assert Aliases(specs) == Aliases(specs[..n]) + [specs[n].alias];
    }
  }

  lemma {:induction false} KeyColumnsAt(fields: seq<string>, c: string)
    ensures c in KeyColumns(fields) <==> c == "_id" || c in KeyNames(fields)
    ensures c in KeyColumns(fields) ==> KeyColumns(fields)[c] == if c in KeyNames(fields) then PathOf("$_id." + c) else Hidden
  {
    if fields != [] {
      var n := |fields| - 1;
      KeyColumnsAt(fields[..n], c);
      assert KeyNames(fields) == KeyNames(fields[..n]) + [GroupKeyName(fields[n])];
    }
  }

  lemma {:induction false} GroupSpecAt(id: IdExpr, specs: seq<AggSpec>, c: string)
    ensures c in GroupSpec(id, specs) <==> c == "_id" || c in Aliases(specs)
    ensures "_id" in GroupSpec(id, specs)
    ensures "_id" !in Aliases(specs) ==> GroupSpec(id, specs)["_id"] == KeyedBy(id)
  {
    if specs != [] {
      var n := |specs| - 1;
      GroupSpecAt(id, specs[..n], c);
      GroupSpecAt(id, specs[..n], "_id");
      assert Aliases(specs) == Aliases(specs[..n]) + [specs[n].alias];
    }
  }

  lemma {:induction false} GroupSpecAcc(id: IdExpr, specs: seq<AggSpec>, i: nat)
    requires NoRepeats(Aliases(specs)) && i < |specs|
    ensures specs[i].alias in GroupSpec(id, specs) && GroupSpec(id, specs)[specs[i].alias] == Acc(AccumulatorOf(specs[i]))
  {
    var n := |specs| - 1;
    if i < n {
      var aliases := Aliases(specs);
      assert Aliases(specs[..n]) == aliases[..n];
      assert aliases[i] != aliases[n];
      GroupSpecAcc(id, specs[..n], i);
    }
  }

  /** The name with underscores for the dots of a path. */
  ghost predicate Flattens(field: string, name: string) {
    |name| == |field| && forall i :: 0 <= i < |field| ==> name[i] == if field[i] == '.' then '_' else field[i]
  }

  lemma {:induction false} KeyNameFlattens(field: string, name: string)
    ensures Flattens(field, name) <==> name == GroupKeyName(field)
  {
    ReplacedOne(field);
    if Flattens(field, name) {
      assert name == GroupKeyName(field);
    }
  }

  lemma {:induction false} ReplacedOne(s: string)
    ensures Flattens(s, ReplaceAll(s, '.', "_"))
  {
    if s != [] {
      ReplacedOne(s[1..]);
      var r := ReplaceAll(s[1..], '.', "_");
      forall i | 0 <= i < |s| ensures ReplaceAll(s, '.', "_")[i] == if s[i] == '.' then '_' else s[i] {
        if i > 0 {
          assert r[i - 1] == if s[1..][i - 1] == '.' then '_' else s[1..][i - 1];
        }
      }
    }
  }

  /** What a field holds in each document, in order. */
  function FieldValues(field: string, docs: seq<Record>): seq<Option<Value>> {
    seq(|docs|, i requires 0 <= i < |docs| => Field(docs[i], field))
  }

  /** What an accumulator column is meant to hold: the number of documents, or what the operator makes of the values of
      the field. */
  function ColumnOf(fold: Folding, spec: AggSpec, docs: seq<Record>): Value {
    if spec.field == "" then Num(|docs| as real) else fold(spec.op, FieldValues(spec.field, docs))
  }

  lemma {:induction false} AccumulatesField(fold: Folding, spec: AggSpec, docs: seq<Record>)
    ensures Accumulate(fold, AccumulatorOf(spec), docs) == ColumnOf(fold, spec, docs)
  {
    assert ("$" + spec.field)[1..] == spec.field;
    assert Values("$" + spec.field, docs) == FieldValues(spec.field, docs);
  }

  /** A result row: columns exactly the flattened keys and the aliases, the keys holding the tuple and
      each other column what is meant over the documents with that tuple. */
  ghost predicate RowRight(fold: Folding, p: Plan, docs: seq<Record>, t: seq<Value>, row: Record)
    requires KeysPresent(p.groupFields, docs)
  {
    && (forall c :: c in row ==> c in Aliases(p.aggSpecs) || exists i :: 0 <= i < |p.groupFields| && Flattens(p.groupFields[i], c))
    && |t| == |p.groupFields|
    && (forall i, c :: 0 <= i < |p.groupFields| && Flattens(p.groupFields[i], c) ==> c in row && row[c] == t[i])
    && (forall i :: 0 <= i < |p.aggSpecs| ==>
          && p.aggSpecs[i].alias in row
          && row[p.aggSpecs[i].alias] == ColumnOf(fold, p.aggSpecs[i], Sharing(p.groupFields, docs, t)))
  }

  function GroupedFor(fold: Folding, p: Plan, docs: seq<Record>, t: seq<Value>): Grouped
    requires |t| == |p.groupFields|
  {
    var spec := GroupSpec(IdOf(p.groupFields), p.aggSpecs);
    var id := TupleId(p.groupFields, t);
    var accs := AccsOf(spec);
    Grouped(id, map a | a in accs :: Accumulate(fold, accs[a], Members(IdOf(p.groupFields), docs, id)))
  }

  /** What one projected column holds. */
  lemma {:induction false} ColumnRight(fold: Folding, p: Plan, docs: seq<Record>, t: seq<Value>, c: string)
    requires Check(p) == None && "_id" !in Aliases(p.aggSpecs)
    requires |t| == |p.groupFields|
    ensures var g, cols := GroupedFor(fold, p, docs, t), ProjectColumns(p.groupFields, p.aggSpecs);
            && (c in Aliases(p.aggSpecs) ==> c in cols && cols[c] == Kept && c in g.cols)
            && (c in KeyNames(p.groupFields) ==> c in cols && cols[c].PathOf? && c in TupleMap(p.groupFields, t) && ColumnValue(cols[c], c, g) == Some(TupleMap(p.groupFields, t)[c]))
            && (c in cols && c !in ResultColumns(p) ==> cols[c] == Hidden)
  {
    var fields, specs := p.groupFields, p.aggSpecs;
    var base := if |fields| == 1 then map["_id" := Hidden][GroupKeyName(fields[0]) := PathOf("$_id")] else KeyColumns(fields);
    ColumnsAt(base, specs, c);
    KeyColumnsAt(fields, c);
    GroupSpecAt(IdOf(fields), specs, c);
    TupleMapAt(fields, t);
    var names := KeyNames(fields);
    if c in names {
      assert c !in Aliases(specs) by { KeyNotAlias(p, c); }
      if |fields| == 1 {
        assert names == [GroupKeyName(fields[0])];
        assert TupleMap(fields, t)[c] == t[0];
      } else {
        assert ("$_id." + c)[..5] == "$_id." && ("$_id." + c)[5..] == c;
      }
    }
    if c in Aliases(specs) {
      var i :| 0 <= i < |specs| && Aliases(specs)[i] == c;
      AliasesDistinct(p);
      GroupSpecAcc(IdOf(fields), specs, i);
    }
  }

  lemma {:induction false} KeyNotAlias(p: Plan, c: string)
    requires NoRepeats(ResultColumns(p)) && c in KeyNames(p.groupFields)
    ensures c !in Aliases(p.aggSpecs)
  {
    var names, aliases := KeyNames(p.groupFields), Aliases(p.aggSpecs);
    var i :| 0 <= i < |names| && names[i] == c;
    forall j | 0 <= j < |aliases| ensures aliases[j] != c {
      assert ResultColumns(p)[i] == c && ResultColumns(p)[|names| + j] == aliases[j];
    }
  }

  lemma {:induction false} AliasesDistinct(p: Plan)
    requires NoRepeats(ResultColumns(p))
    ensures NoRepeats(Aliases(p.aggSpecs))
  {
    var names, aliases := KeyNames(p.groupFields), Aliases(p.aggSpecs);
    forall i, j | 0 <= i < j < |aliases| ensures aliases[i] != aliases[j] {
      assert ResultColumns(p)[|names| + i] == aliases[i] && ResultColumns(p)[|names| + j] == aliases[j];
    }
  }

  lemma {:induction false} RowColumns(fold: Folding, p: Plan, docs: seq<Record>, t: seq<Value>, c: string)
    requires Check(p) == None && "_id" !in Aliases(p.aggSpecs) && |t| == |p.groupFields|
    requires c in EvalProject(ProjectColumns(p.groupFields, p.aggSpecs), GroupedFor(fold, p, docs, t))
    ensures c in Aliases(p.aggSpecs) || exists i :: 0 <= i < |p.groupFields| && Flattens(p.groupFields[i], c)
  {
    hide ProjectColumns, GroupedFor, NoRepeats, Flattens;
    ColumnRight(fold, p, docs, t, c);
    hide Check;
    if c in KeyNames(p.groupFields) {
      var i :| 0 <= i < |p.groupFields| && KeyNames(p.groupFields)[i] == c;
      KeyNameFlattens(p.groupFields[i], c);
    }
  }

  lemma {:induction false} RowKey(fold: Folding, p: Plan, docs: seq<Record>, t: seq<Value>, i: nat, c: string)
    requires Check(p) == None && "_id" !in Aliases(p.aggSpecs) && |t| == |p.groupFields|
    requires i < |p.groupFields| && Flattens(p.groupFields[i], c)
    ensures var row := EvalProject(ProjectColumns(p.groupFields, p.aggSpecs), GroupedFor(fold, p, docs, t));
            c in row && row[c] == t[i]
  {
    TupleMapAt(p.groupFields, t);
    KeyNameFlattens(p.groupFields[i], c);
    hide ProjectColumns, GroupedFor, NoRepeats, Flattens, TupleMap;
    assert KeyNames(p.groupFields)[i] == GroupKeyName(p.groupFields[i]);
    ColumnRight(fold, p, docs, t, c);
  }

  lemma {:induction false} RowAcc(fold: Folding, p: Plan, docs: seq<Record>, t: seq<Value>, i: nat)
    requires Check(p) == None && "_id" !in Aliases(p.aggSpecs)
    requires KeysPresent(p.groupFields, docs) && |t| == |p.groupFields| && i < |p.aggSpecs|
    ensures var row, c := EvalProject(ProjectColumns(p.groupFields, p.aggSpecs), GroupedFor(fold, p, docs, t)), p.aggSpecs[i].alias;
            c in row && row[c] == ColumnOf(fold, p.aggSpecs[i], Sharing(p.groupFields, docs, t))
  {
    MembersShare(p.groupFields, docs, t);
    AliasesDistinct(p);
    AccumulatesField(fold, p.aggSpecs[i], Sharing(p.groupFields, docs, t));
    hide GroupSpec, ProjectColumns, TupleMap, TupleId, IdOf, NoRepeats, Accumulate, AccumulatorOf, ColumnOf, Sharing, KeyNames;
    assert Aliases(p.aggSpecs)[i] == p.aggSpecs[i].alias;
    ColumnRight(fold, p, docs, t, p.aggSpecs[i].alias);
    GroupSpecAcc(IdOf(p.groupFields), p.aggSpecs, i);
  }

  lemma {:induction false} RowIsRight(fold: Folding, p: Plan, docs: seq<Record>, t: seq<Value>)
    requires Check(p) == None && "_id" !in Aliases(p.aggSpecs)
    requires KeysPresent(p.groupFields, docs) && |t| == |p.groupFields|
    ensures RowRight(fold, p, docs, t, EvalProject(ProjectColumns(p.groupFields, p.aggSpecs), GroupedFor(fold, p, docs, t)))
  {
    hide Check, EvalProject, ProjectColumns, GroupedFor, Flattens, ColumnOf, Sharing, Aliases;
    var row := EvalProject(ProjectColumns(p.groupFields, p.aggSpecs), GroupedFor(fold, p, docs, t));
    forall c | c in row ensures c in Aliases(p.aggSpecs) || exists i :: 0 <= i < |p.groupFields| && Flattens(p.groupFields[i], c) {
      RowColumns(fold, p, docs, t, c);
    }
    forall i, c | 0 <= i < |p.groupFields| && Flattens(p.groupFields[i], c) ensures c in row && row[c] == t[i] {
      RowKey(fold, p, docs, t, i, c);
    }
    forall i | 0 <= i < |p.aggSpecs|
      ensures p.aggSpecs[i].alias in row && row[p.aggSpecs[i].alias] == ColumnOf(fold, p.aggSpecs[i], Sharing(p.groupFields, docs, t))
    {
      RowAcc(fold, p, docs, t, i);
    }
  }

  // ---- The main theorem ----

  /** The documents a query's conditions select. */
  ghost function Matching(w: World, p: Plan, docs: seq<Record>): seq<Record> {
    if docs == [] then []
    else
      var n := |docs| - 1;
      Matching(w, p, docs[..n]) + (if Selects(w, p.conditions, p.orGroups, docs[n]) then [docs[n]] else [])
  }

  ghost predicate DocsSafe(p: Plan, docs: seq<Record>) {
    forall i :: 0 <= i < |docs| ==> LikeSafe(p.conditions, docs[i]) && GroupsSafe(p.orGroups, docs[i])
  }

  lemma {:induction false} FilteredMatches(w: World, p: Plan, docs: seq<Record>)
    requires PlanBuilt(p) && DocsSafe(p, docs)
    ensures Filtered(w, QueryFilter(p.conditions, p.orGroups), docs) == Matching(w, p, docs)
  {
    hide QueryFilter, Accepts, Selects;
    if docs != [] {
      var n := |docs| - 1;
      FilteredMatches(w, p, docs[..n]);
      QueryFilterMeans(w, p.conditions, p.orGroups, docs[n]);
    }
  }

  lemma {:induction false} EmptyFilterKeepsAll(w: World, d: Doc, docs: seq<Record>)
    requires EmptyDoc(d)
    ensures Filtered(w, d, docs) == docs
  {
    if docs != [] {
      var n := |docs| - 1;
      EmptyFilterKeepsAll(w, d, docs[..n]);
      assert Accepts(w, d, docs[n]);
      assert docs == docs[..n] + [docs[n]];
    }
  }

  lemma {:induction false} MatchingPresent(w: World, p: Plan, docs: seq<Record>)
    requires KeysPresent(p.groupFields, docs)
    ensures KeysPresent(p.groupFields, Matching(w, p, docs))
  {
    if docs != [] {
      MatchingPresent(w, p, docs[..|docs| - 1]);
    }
  }

  lemma {:induction false} FrontRuns(w: World, fold: Folding, p: Plan, docs: seq<Record>)
    requires PlanBuilt(p) && DocsSafe(p, docs) && "_id" !in Aliases(p.aggSpecs)
    ensures var groups := EvalGroup(fold, GroupSpec(IdOf(p.groupFields), p.aggSpecs), Matching(w, p, docs));
            EvalFront(w, fold, Front(p), docs)
            == seq(|groups|, i requires 0 <= i < |groups| => EvalProject(ProjectColumns(p.groupFields, p.aggSpecs), groups[i]))
  {
    FilteredMatches(w, p, docs);
    hide QueryFilter, GroupSpec, ProjectColumns, IdOf, EvalGroup, EvalProject, Filtered, EmptyDoc;
    var filter := QueryFilter(p.conditions, p.orGroups);
    if EmptyDoc(filter) {
      EmptyFilterKeepsAll(w, filter, docs);
    } else {
      var tail := [Group(GroupSpec(IdOf(p.groupFields), p.aggSpecs)), Project(ProjectColumns(p.groupFields, p.aggSpecs))];
      assert Front(p) == [Match(filter)] + tail && Front(p)[1..] == tail;
    }
  }

  /** Grouped aggregation preserves meaning: through $project there is one row for each different
      key tuple of the matching documents, and every row is right. */
  lemma {:induction false} GroupedMeans(w: World, fold: Folding, p: Plan, docs: seq<Record>)
    requires PlanBuilt(p) && Check(p) == None && "_id" !in Aliases(p.aggSpecs)
    requires KeysPresent(p.groupFields, docs) && DocsSafe(p, docs)
    ensures KeysPresent(p.groupFields, Matching(w, p, docs))
    ensures var matching := Matching(w, p, docs);
            var tuples := Uniq(Tuples(p.groupFields, matching));
            var rows := EvalFront(w, fold, Front(p), docs);
            && NoRepeats(tuples)
            && (forall t :: t in tuples <==> t in Tuples(p.groupFields, matching))
            && |rows| == |tuples|
            && forall i :: 0 <= i < |rows| ==> RowRight(fold, p, matching, tuples[i], rows[i])
  {
    MatchingPresent(w, p, docs);
    var matching := Matching(w, p, docs);
    var tuples := Uniq(Tuples(p.groupFields, matching));
    UniqElements(Tuples(p.groupFields, matching));
    FrontRuns(w, fold, p, docs);
    UniqIds(p.groupFields, matching);
    GroupSpecAt(IdOf(p.groupFields), p.aggSpecs, "_id");
    hide GroupSpec, ProjectColumns, IdOf, TupleId, Front, Matching, EvalFront, Uniq, KeyNames, Aliases, NoRepeats, RowRight;
    forall i | 0 <= i < |tuples|
      ensures RowRight(fold, p, matching, tuples[i], EvalProject(ProjectColumns(p.groupFields, p.aggSpecs), GroupedFor(fold, p, matching, tuples[i])))
    {
      RowIsRight(fold, p, matching, tuples[i]);
    }
  }

  // ---- Conditions on rows ----

  /** The $match that may begin the stages after $project, run over the rows. */
  function EvalHaving(w: World, stages: seq<Stage>, rows: seq<Record>): seq<Record> {
    if stages != [] && stages[0].Match? then Filtered(w, stages[0].filter, rows) else rows
  }

  function RowsKept(w: World, cs: seq<Condition>, rows: seq<Record>): seq<Record> {
    if rows == [] then []
    else
      var n := |rows| - 1;
      RowsKept(w, cs, rows[..n]) + (if AllHold(w, cs, rows[n]) then [rows[n]] else [])
  }

  lemma {:induction false} FilteredKept(w: World, cs: seq<Condition>, rows: seq<Record>)
    requires AllBuilt(cs) && forall i :: 0 <= i < |rows| ==> LikeSafe(cs, rows[i])
    ensures Filtered(w, ConditionFilter(cs), rows) == RowsKept(w, cs, rows)
  {
    hide ConditionFilter, Accepts, AllHold, LikeSafe;
    if rows != [] {
      var n := |rows| - 1;
      FilteredKept(w, cs, rows[..n]);
      ConditionFilterMeans(w, cs, rows[n]);
    }
  }

  /** Having keeps exactly the rows on which all its conditions hold, in their order. */
  lemma {:induction false} HavingMeans(w: World, p: Plan, rows: seq<Record>)
    requires PlanBuilt(p) && forall i :: 0 <= i < |rows| ==> LikeSafe(p.havingConds, rows[i])
    ensures EvalHaving(w, Back(p), rows) == RowsKept(w, p.havingConds, rows)
  {
    FilteredKept(w, p.havingConds, rows);
    hide ConditionFilter, EmptyDoc, Filtered, RowsKept;
    if EmptyDoc(ConditionFilter(p.havingConds)) {
      EmptyFilterKeepsAll(w, ConditionFilter(p.havingConds), rows);
    }
  }

  // ---- Order and paging of rows ----

  /** How the server sorts rows by columns and directions. */
  type Ordering = (seq<(string, int)>, seq<Record>) -> seq<Record>

  function EvalStage(w: World, order: Ordering, stage: Stage, rows: seq<Record>): seq<Record> {
    match stage
    case Match(filter) => Filtered(w, filter, rows)
    case Sort(keys) => order(keys, rows)
    case Skip(n) => if 0 <= n <= |rows| then rows[n..] else []
    case Limit(n) => if 0 <= n <= |rows| then rows[..n] else rows
    case _ => []
  }

  /** Running stages one after the other. */
  function EvalStages(w: World, order: Ordering, stages: seq<Stage>, rows: seq<Record>): seq<Record>
    decreases |stages|
  {
    if stages == [] then rows
    else var n := |stages| - 1; EvalStage(w, order, stages[n], EvalStages(w, order, stages[..n], rows))
  }

  lemma {:induction false} EvalLater(w: World, order: Ordering, first: seq<Stage>, later: seq<Stage>, rows: seq<Record>)
    requires |later| <= 1
    ensures EvalStages(w, order, first + later, rows)
            == if later == [] then EvalStages(w, order, first, rows) else EvalStage(w, order, later[0], EvalStages(w, order, first, rows))
  {
    if later == [] {
      assert first + later == first;
    } else {
      assert (first + later)[..|first|] == first;
    }
  }

  /** The rows a grouped query is meant to hand out, of those on which its conditions hold: put in order if one is
      asked for, then one page of them. */
  ghost predicate Page(p: Plan, all: seq<Record>, page: seq<Record>) {
    var from := if p.skip > 0 then p.skip else 0;
    && (forall i :: 0 <= i < |page| ==> from + i < |all| && page[i] == all[from + i])
    && (|page| == p.limit || (|page| == if from <= |all| then |all| - from else 0))
    && (p.limit > 0 ==> |page| <= p.limit)
    && (|page| == p.limit ==> p.limit > 0 || from >= |all|)
  }

  /** What comes after $project keeps the rows on which all conditions hold, puts them in order, and takes a page:
      as many as the limit says, if there is one, behind those skipped. */
  lemma {:induction false} BackMeans(w: World, order: Ordering, p: Plan, rows: seq<Record>)
    requires PlanBuilt(p) && forall i :: 0 <= i < |rows| ==> LikeSafe(p.havingConds, rows[i])
    ensures var kept := RowsKept(w, p.havingConds, rows);
            Page(p, if p.sort == [] then kept else order(p.sort, kept), EvalStages(w, order, Back(p), rows))
  {
    var kept := RowsKept(w, p.havingConds, rows);
    var all := if p.sort == [] then kept else order(p.sort, kept);
    HavingKept(w, order, p, rows);
    BackRuns(w, order, p, rows);
    Pages(w, order, p, all);
    hide Page, EvalStages, EvalStage, Back, RowsKept;
  }

  function HavingStages(p: Plan): seq<Stage>
    requires AllBuilt(p.havingConds)
  {
    if EmptyDoc(ConditionFilter(p.havingConds)) then [] else [Match(ConditionFilter(p.havingConds))]
  }

  lemma {:induction false} HavingKept(w: World, order: Ordering, p: Plan, rows: seq<Record>)
    requires PlanBuilt(p) && forall i :: 0 <= i < |rows| ==> LikeSafe(p.havingConds, rows[i])
    ensures EvalStages(w, order, HavingStages(p), rows) == RowsKept(w, p.havingConds, rows)
  {
    FilteredKept(w, p.havingConds, rows);
    hide ConditionFilter, EmptyDoc, Filtered, RowsKept, EvalStages;
    EvalNone(w, order, rows);
    if EmptyDoc(ConditionFilter(p.havingConds)) {
      EmptyFilterKeepsAll(w, ConditionFilter(p.havingConds), rows);
    } else {
      EvalLater(w, order, [], HavingStages(p), rows);
      assert [] + HavingStages(p) == HavingStages(p);
    }
  }

  function Skipped(p: Plan): seq<Stage> {
    if p.skip > 0 then [Skip(p.skip)] else []
  }

  function Limited(p: Plan): seq<Stage> {
    if p.limit > 0 then [Limit(p.limit)] else []
  }

  lemma {:induction false} BackRuns(w: World, order: Ordering, p: Plan, rows: seq<Record>)
    requires PlanBuilt(p)
    ensures var kept := EvalStages(w, order, HavingStages(p), rows);
            var all := if p.sort == [] then kept else order(p.sort, kept);
            EvalStages(w, order, Back(p), rows) == EvalStages(w, order, Skipped(p) + Limited(p), all)
  {
    var s0 := HavingStages(p);
    var s1: seq<Stage> := if p.sort == [] then [] else [Sort(p.sort)];
    assert Back(p) == ((s0 + s1) + Skipped(p)) + Limited(p);
    hide HavingStages, EvalStages, Back;
    EvalLater(w, order, s0, s1, rows);
    EvalLater(w, order, s0 + s1, Skipped(p), rows);
    EvalLater(w, order, s0 + s1 + Skipped(p), Limited(p), rows);
    var all := EvalStages(w, order, s0 + s1, rows);
    EvalNone(w, order, all);
    EvalLater(w, order, [], Skipped(p), all);
    assert [] + Skipped(p) == Skipped(p);
    EvalLater(w, order, Skipped(p), Limited(p), all);
  }

  lemma {:induction false} Pages(w: World, order: Ordering, p: Plan, all: seq<Record>)
    ensures Page(p, all, EvalStages(w, order, Skipped(p) + Limited(p), all))
  {
    EvalNone(w, order, all);
    EvalLater(w, order, [], Skipped(p), all);
    assert [] + Skipped(p) == Skipped(p);
    EvalLater(w, order, Skipped(p), Limited(p), all);
    hide EvalStages;
  }

  lemma {:induction false} EvalNone(w: World, order: Ordering, rows: seq<Record>)
    ensures EvalStages(w, order, [], rows) == rows
  {
  }

  // ---- Which plans are refused ----

  /** Columns of a result have different names. */
  ghost predicate ColumnsClash(p: Plan) {
    || (exists i, j :: 0 <= i < j < |p.groupFields| && GroupKeyName(p.groupFields[i]) == GroupKeyName(p.groupFields[j]))
    || (exists i, j :: 0 <= i < j < |p.aggSpecs| && p.aggSpecs[i].alias == p.aggSpecs[j].alias)
    || (exists i, j :: 0 <= i < |p.groupFields| && 0 <= j < |p.aggSpecs| && GroupKeyName(p.groupFields[i]) == p.aggSpecs[j].alias)
  }

  ghost predicate IsColumn(p: Plan, name: string) {
    (exists i :: 0 <= i < |p.groupFields| && GroupKeyName(p.groupFields[i]) == name) || exists i :: 0 <= i < |p.aggSpecs| && p.aggSpecs[i].alias == name
  }

  lemma {:induction false} ColumnsAre(p: Plan, name: string)
    ensures name in ResultColumns(p) <==> IsColumn(p, name)
  {
    var names, aliases, cols := KeyNames(p.groupFields), Aliases(p.aggSpecs), ResultColumns(p);
    assert name in cols <==> name in names || name in aliases;
    forall i | 0 <= i < |p.groupFields| && GroupKeyName(p.groupFields[i]) == name ensures name in names {
      assert names[i] == name;
    }
    forall i | 0 <= i < |p.aggSpecs| && p.aggSpecs[i].alias == name ensures name in aliases {
      assert aliases[i] == name;
    }
  }

  lemma {:induction false} Apart(p: Plan, i: nat, j: nat)
    requires !ColumnsClash(p) && i < j < |ResultColumns(p)|
    ensures ResultColumns(p)[i] != ResultColumns(p)[j]
  {
    hide GroupKeyName;
    var n := |p.groupFields|;
    if j < n {
      assert ResultColumns(p)[i] == GroupKeyName(p.groupFields[i]) && ResultColumns(p)[j] == GroupKeyName(p.groupFields[j]);
    } else if i < n {
      assert ResultColumns(p)[i] == GroupKeyName(p.groupFields[i]) && ResultColumns(p)[j] == p.aggSpecs[j - n].alias;
    } else {
      assert ResultColumns(p)[i] == p.aggSpecs[i - n].alias && ResultColumns(p)[j] == p.aggSpecs[j - n].alias;
    }
  }

  lemma {:induction false} NoClash(p: Plan)
    requires NoRepeats(ResultColumns(p))
    ensures !ColumnsClash(p)
  {
    hide GroupKeyName;
    var cols, n := ResultColumns(p), |p.groupFields|;
    forall i, j | 0 <= i < j < n ensures GroupKeyName(p.groupFields[i]) != GroupKeyName(p.groupFields[j]) {
      assert cols[i] != cols[j];
    }
    forall i, j | 0 <= i < j < |p.aggSpecs| ensures p.aggSpecs[i].alias != p.aggSpecs[j].alias {
      assert cols[n + i] != cols[n + j];
    }
    forall i, j | 0 <= i < n && 0 <= j < |p.aggSpecs| ensures GroupKeyName(p.groupFields[i]) != p.aggSpecs[j].alias {
      assert cols[i] != cols[n + j];
    }
  }

  lemma {:induction false} ResultColumnsAre(p: Plan)
    ensures NoRepeats(ResultColumns(p)) <==> !ColumnsClash(p)
    ensures forall name :: name in ResultColumns(p) <==> IsColumn(p, name)
  {
    forall name ensures name in ResultColumns(p) <==> IsColumn(p, name) {
      ColumnsAre(p, name);
    }
    hide ResultColumns, ColumnsClash, IsColumn;
    if NoRepeats(ResultColumns(p)) {
      NoClash(p);
    }
    if !ColumnsClash(p) {
      forall i, j | 0 <= i < j < |ResultColumns(p)| ensures ResultColumns(p)[i] != ResultColumns(p)[j] {
        Apart(p, i, j);
      }
    }
  }

  /** A plan is accepted exactly when it groups, selects no fields, has columns of different names, and refers to its
      columns only. */
  lemma {:induction false} AcceptedIff(p: Plan)
    ensures Check(p) == None <==>
            && p.groupFields != [] && p.fields == [] && !ColumnsClash(p)
            && (forall i :: 0 <= i < |p.havingConds| ==> IsColumn(p, p.havingConds[i].field))
            && (forall i :: 0 <= i < |p.sort| ==> IsColumn(p, p.sort[i].0))
  {
    ResultColumnsAre(p);
    var names, cols := KeyNames(p.groupFields), ResultColumns(p);
    assert cols[..|names|] == names;
  }

  /** The error names a fault the plan has, and no fault that is looked for earlier. */
  lemma {:induction false} RefusedFor(p: Plan)
    ensures Check(p) == Some(GroupByRequired) <==> p.groupFields == []
    ensures Check(p) == Some(SelectCombined) <==> p.groupFields != [] && p.fields != []
    ensures Check(p) == Some(DuplicateKey) ==> exists i, j :: 0 <= i < j < |p.groupFields| && GroupKeyName(p.groupFields[i]) == GroupKeyName(p.groupFields[j])
    ensures Check(p) == Some(AliasClash) ==> ColumnsClash(p) && NoRepeats(KeyNames(p.groupFields))
    ensures Check(p) == Some(UnknownHaving) ==> !ColumnsClash(p) && exists i :: 0 <= i < |p.havingConds| && !IsColumn(p, p.havingConds[i].field)
    ensures Check(p) == Some(UnknownSort) ==>
              && !ColumnsClash(p) && (forall i :: 0 <= i < |p.havingConds| ==> IsColumn(p, p.havingConds[i].field))
              && exists i :: 0 <= i < |p.sort| && !IsColumn(p, p.sort[i].0)
  {
    ResultColumnsAre(p);
    if !NoRepeats(KeyNames(p.groupFields)) {
      var i, j :| 0 <= i < j < |KeyNames(p.groupFields)| && KeyNames(p.groupFields)[i] == KeyNames(p.groupFields)[j];
      assert GroupKeyName(p.groupFields[i]) == GroupKeyName(p.groupFields[j]);
    }
  }

  // ---- Counts ----

  function CountOver(fields: seq<string>, docs: seq<Record>, tuples: seq<seq<Value>>): nat
    requires KeysPresent(fields, docs)
  {
    if tuples == [] then 0
    else var n := |tuples| - 1; CountOver(fields, docs, tuples[..n]) + |Sharing(fields, docs, tuples[n])|
  }

  lemma {:induction false} CountAbsent(fields: seq<string>, docs: seq<Record>, t: seq<Value>)
    requires KeysPresent(fields, docs) && t !in Tuples(fields, docs)
    ensures Sharing(fields, docs, t) == []
  {
    if docs != [] {
      var n := |docs| - 1;
      assert Tuples(fields, docs)[n] == KeyTuple(fields, docs[n]);
      assert Tuples(fields, docs[..n]) == Tuples(fields, docs)[..n];
      CountAbsent(fields, docs[..n], t);
    }
  }

  lemma {:induction false} CountStep(fields: seq<string>, docs: seq<Record>, tuples: seq<seq<Value>>)
    requires docs != [] && KeysPresent(fields, docs) && NoRepeats(tuples)
    ensures var n := |docs| - 1;
            CountOver(fields, docs, tuples)
            == CountOver(fields, docs[..n], tuples) + (if KeyTuple(fields, docs[n]) in tuples then 1 else 0)
  {
    if tuples != [] {
      var m := |tuples| - 1;
      CountStep(fields, docs, tuples[..m]);
      assert tuples == tuples[..m] + [tuples[m]];
    }
  }

  /** The sizes of the groups add up to the number of matching documents. */
  lemma {:induction false} CountsSum(fields: seq<string>, docs: seq<Record>)
    requires KeysPresent(fields, docs)
    ensures CountOver(fields, docs, Uniq(Tuples(fields, docs))) == |docs|
  {
    if docs == [] {
      assert Uniq(Tuples(fields, docs)) == [];
    } else {
      var n := |docs| - 1;
      var ts := Tuples(fields, docs);
      assert Tuples(fields, docs[..n]) == ts[..n];
      CountsSum(fields, docs[..n]);
      UniqElements(ts);
      UniqElements(ts[..n]);
      CountStep(fields, docs, Uniq(ts));
      assert ts[n] in Uniq(ts);
      if ts[n] !in Uniq(ts[..n]) {
        CountAbsent(fields, docs[..n], ts[n]);
        assert Uniq(ts)[..|Uniq(ts)| - 1] == Uniq(ts[..n]);
      }
    }
  }

  /** CountAs: over all rows, the counts add up to the number of matching documents. */
  function SumColumn(rows: seq<Record>, alias: string): real
    requires forall i :: 0 <= i < |rows| ==> alias in rows[i] && rows[i][alias].Num?
  {
    if rows == [] then 0.0 else var n := |rows| - 1; SumColumn(rows[..n], alias) + rows[n][alias].n
  }

  lemma {:induction false} RowCount(fold: Folding, p: Plan, docs: seq<Record>, t: seq<Value>, row: Record, j: nat)
    requires KeysPresent(p.groupFields, docs) && RowRight(fold, p, docs, t, row) && j < |p.aggSpecs| && p.aggSpecs[j].field == ""
    ensures p.aggSpecs[j].alias in row && row[p.aggSpecs[j].alias] == Num(|Sharing(p.groupFields, docs, t)| as real)
  {
    hide Flattens, Sharing;
  }

  lemma {:induction false} SumIsCount(fold: Folding, p: Plan, docs: seq<Record>, tuples: seq<seq<Value>>, rows: seq<Record>, j: nat)
    requires KeysPresent(p.groupFields, docs) && |rows| == |tuples|
    requires j < |p.aggSpecs| && p.aggSpecs[j].field == ""
    requires forall i :: 0 <= i < |rows| ==> RowRight(fold, p, docs, tuples[i], rows[i])
    ensures forall i :: 0 <= i < |rows| ==> p.aggSpecs[j].alias in rows[i] && rows[i][p.aggSpecs[j].alias].Num?
    ensures SumColumn(rows, p.aggSpecs[j].alias) == CountOver(p.groupFields, docs, tuples) as real
  {
    hide RowRight, KeysPresent, Sharing;
    if rows != [] {
      var n := |rows| - 1;
      RowCount(fold, p, docs, tuples[n], rows[n], j);
      SumIsCount(fold, p, docs, tuples[..n], rows[..n], j);
    }
  }

  lemma {:induction false} CountAsTotals(w: World, fold: Folding, p: Plan, docs: seq<Record>, j: nat)
    requires PlanBuilt(p) && Check(p) == None && "_id" !in Aliases(p.aggSpecs)
    requires KeysPresent(p.groupFields, docs) && DocsSafe(p, docs)
    requires j < |p.aggSpecs| && p.aggSpecs[j].field == ""
    ensures var rows := EvalFront(w, fold, Front(p), docs);
            && (forall i :: 0 <= i < |rows| ==> p.aggSpecs[j].alias in rows[i] && rows[i][p.aggSpecs[j].alias].Num?)
            && SumColumn(rows, p.aggSpecs[j].alias) == |Matching(w, p, docs)| as real
  {
    hide Front, EvalFront, Matching, Check, Aliases, RowRight, Uniq, Tuples;
    GroupedMeans(w, fold, p, docs);
    var matching := Matching(w, p, docs);
    var tuples := Uniq(Tuples(p.groupFields, matching));
    SumIsCount(fold, p, matching, tuples, EvalFront(w, fold, Front(p), docs), j);
    CountsSum(p.groupFields, matching);
  }
}
