/** The query builder: a chain of calls that appends to the fields of one object. */
module Query {
  import opened Options
  import opened Like
  import opened Filter
  import opened Where
  import opened GroupPipeline
  import opened Growing

  /** Why an accumulator cannot have this alias. */
  function AliasError(alias: string): Option<Where.Error> {
    if TrimSpace(alias) == "" then Some(BlankAlias)
    else if alias == "_id" then Some(ReservedAlias)
    else if alias[..1] == "$" || '.' in alias then Some(MalformedAlias)
    else None
  }

  /** An alias will do when it is not blank, is not taken by the server, and stands for one column. */
  lemma {:induction false} AliasUsable(alias: string)
    ensures AliasError(alias) == None <==>
            && (exists i :: 0 <= i < |alias| && !IsSpace(alias[i])) && alias != "_id"
            && alias[0] != '$' && forall i :: 0 <= i < |alias| ==> alias[i] != '.'
    ensures AliasError(alias) == Some(BlankAlias) <==> AllSpace(alias)
    ensures AliasError(alias) == Some(ReservedAlias) <==> alias == "_id"
  {
    hide IsSpace, TrimSpace;
    BlankIsSpace(alias);
    BlankIsSpace("_id");
    assert !IsSpace('_') by { Underscore(); }
    assert "_id"[0] == '_';
    if alias != "" {
      assert alias[..1] == [alias[0]];
    }
  }

  lemma {:induction false} Underscore()
    ensures !IsSpace('_')
  {
  }

  /** What every builder keeps: conditions the compiler can assert the types of, no empty or-group, and aliases
      that cannot collide with "_id". */
  predicate Wellformed(p: Plan) {
    && AllBuilt(p.conditions) && GroupsBuilt(p.orGroups) && AllBuilt(p.havingConds)
    && (forall i :: 0 <= i < |p.orGroups| ==> p.orGroups[i] != [])
    && (forall i :: 0 <= i < |p.aggSpecs| ==> p.aggSpecs[i].alias != "_id" && TrimSpace(p.aggSpecs[i].alias) != "")
  }

  lemma {:induction false} WellformedNew()
    ensures Wellformed(Plan([], [], [], [], [], [], [], 0, 0))
  {
  }

  lemma {:induction false} WellformedMore(p: Plan, cs: seq<Condition>, a: AggSpec)
    requires Wellformed(p)
    ensures AllBuilt(cs) ==> Wellformed(p.(conditions := p.conditions + cs)) && Wellformed(p.(havingConds := p.havingConds + cs))
    ensures AllBuilt(cs) && cs != [] ==> Wellformed(p.(orGroups := p.orGroups + [cs]))
    ensures AliasError(a.alias) == None ==> Wellformed(p.(aggSpecs := p.aggSpecs + [a]))
    ensures forall names :: Wellformed(p.(groupFields := names))
  {
  }

  /** Nothing replaces an error that is there. */
  function FirstError(err: Option<Where.Error>, e: Where.Error): (r: Option<Where.Error>)
    ensures r.Some? && (r == err || (err.None? && r.value == e))
  {
    if err == None then Some(e) else err
  }

  class Query {
    const conditions: Buffer<Condition>
    const orGroups: Buffer<seq<Condition>>
    const sort: Buffer<(string, int)>
    const fields: Buffer<string>
    const groupFields: Buffer<string>
    const havingConds: Buffer<Condition>
    const aggSpecs: Buffer<AggSpec>
    var limit: int
    var skip: int
    var err: Option<Where.Error>

    // This object, its lists and their buffers.
    ghost var Repr: set<object>

    ghost predicate Separate()
      reads this, Repr
    {
      && this in Repr
      && conditions in Repr && orGroups in Repr && sort in Repr && fields in Repr && groupFields in Repr && havingConds in Repr && aggSpecs in Repr
      && conditions.Repr <= Repr && orGroups.Repr <= Repr && sort.Repr <= Repr && fields.Repr <= Repr
      && groupFields.Repr <= Repr && havingConds.Repr <= Repr && aggSpecs.Repr <= Repr
      && conditions in conditions.Repr && orGroups in orGroups.Repr && sort in sort.Repr && fields in fields.Repr
      && groupFields in groupFields.Repr && havingConds in havingConds.Repr && aggSpecs in aggSpecs.Repr
      && {this} !! conditions.Repr !! orGroups.Repr !! sort.Repr !! fields.Repr !! groupFields.Repr !! havingConds.Repr !! aggSpecs.Repr
      && conditions.Valid() && orGroups.Valid() && sort.Valid() && fields.Valid()
      && groupFields.Valid() && havingConds.Valid() && aggSpecs.Valid()
    }

    ghost function View(): Plan
      reads this, Repr
      requires Separate()
    {
      Plan(conditions.items, orGroups.items, fields.items, groupFields.items, havingConds.items, aggSpecs.items, sort.items, skip, limit)
    }

    ghost predicate Valid()
      reads this, Repr
    {
      Separate() && Wellformed(View())
    }

    constructor Of(
        conditions: Buffer<Condition>, orGroups: Buffer<seq<Condition>>, sort: Buffer<(string, int)>, fields: Buffer<string>,
        groupFields: Buffer<string>, havingConds: Buffer<Condition>, aggSpecs: Buffer<AggSpec>,
        limit: int, skip: int, err: Option<Where.Error>)
      requires conditions.Valid() && orGroups.Valid() && sort.Valid() && fields.Valid()
      requires groupFields.Valid() && havingConds.Valid() && aggSpecs.Valid()
      requires conditions.Repr !! orGroups.Repr !! sort.Repr !! fields.Repr !! groupFields.Repr !! havingConds.Repr !! aggSpecs.Repr
      ensures Separate() && this.err == err
      ensures View() == Plan(conditions.items, orGroups.items, fields.items, groupFields.items, havingConds.items, aggSpecs.items, sort.items, skip, limit)
      ensures Repr == {this} + conditions.Repr + orGroups.Repr + sort.Repr + fields.Repr + groupFields.Repr + havingConds.Repr + aggSpecs.Repr
    {
      this.conditions, this.orGroups, this.sort, this.fields := conditions, orGroups, sort, fields;
      this.groupFields, this.havingConds, this.aggSpecs := groupFields, havingConds, aggSpecs;
      this.limit, this.skip, this.err := limit, skip, err;
      Repr := {this} + conditions.Repr + orGroups.Repr + sort.Repr + fields.Repr + groupFields.Repr + havingConds.Repr + aggSpecs.Repr;
    }

    static method New() returns (q: Query)
      ensures fresh(q.Repr) && q.Valid() && q.err == None && q.View() == Plan([], [], [], [], [], [], [], 0, 0)
    {
      hide Buffer.Valid, Wellformed;
      WellformedNew();
      var conditions, orGroups, havingConds, aggSpecs := NewConditions();
      var sort, fields, groupFields := NewNames();
      q := new Query.Of(conditions, orGroups, sort, fields, groupFields, havingConds, aggSpecs, 0, 0, None);
    }

    static method NewConditions() returns (conditions': Buffer<Condition>, orGroups': Buffer<seq<Condition>>, havingConds': Buffer<Condition>, aggSpecs': Buffer<AggSpec>)
      ensures conditions'.Valid() && orGroups'.Valid() && havingConds'.Valid() && aggSpecs'.Valid() && conditions'.items == [] && orGroups'.items == [] && havingConds'.items == [] && aggSpecs'.items == []
      ensures conditions'.Repr !! orGroups'.Repr !! havingConds'.Repr !! aggSpecs'.Repr
      ensures fresh(conditions'.Repr + orGroups'.Repr + havingConds'.Repr + aggSpecs'.Repr)
    {
      hide Buffer.Valid;
      conditions' := new Buffer<Condition>();
      orGroups' := new Buffer<seq<Condition>>();
      havingConds' := new Buffer<Condition>();
      aggSpecs' := new Buffer<AggSpec>();
    }

    static method NewNames() returns (sort': Buffer<(string, int)>, fields': Buffer<string>, groupFields': Buffer<string>)
      ensures sort'.Valid() && fields'.Valid() && groupFields'.Valid() && sort'.items == [] && fields'.items == [] && groupFields'.items == []
      ensures sort'.Repr !! fields'.Repr !! groupFields'.Repr
      ensures fresh(sort'.Repr + fields'.Repr + groupFields'.Repr)
    {
      hide Buffer.Valid;
      sort' := new Buffer<(string, int)>();
      fields' := new Buffer<string>();
      groupFields' := new Buffer<string>();
    }

    /** An independent copy: it shares no buffer, so that later calls on either query leave the other as it is. */
    method Clone() returns (c: Query)
      requires Valid()
      ensures fresh(c.Repr) && c.Valid() && c.View() == View() && c.err == err
    {
      hide Buffer.Valid, Wellformed;
      var conditions', orGroups', havingConds', aggSpecs' := CopyConditions();
      var sort', fields', groupFields' := CopyNames();
      c := new Query.Of(conditions', orGroups', sort', fields', groupFields', havingConds', aggSpecs', limit, skip, err);
    }

    method CopyConditions() returns (conditions': Buffer<Condition>, orGroups': Buffer<seq<Condition>>, havingConds': Buffer<Condition>, aggSpecs': Buffer<AggSpec>)
      requires Valid()
      ensures conditions'.Valid() && orGroups'.Valid() && havingConds'.Valid() && aggSpecs'.Valid() && conditions'.items == conditions.items && orGroups'.items == orGroups.items && havingConds'.items == havingConds.items && aggSpecs'.items == aggSpecs.items
      ensures conditions'.Repr !! orGroups'.Repr !! havingConds'.Repr !! aggSpecs'.Repr
      ensures fresh(conditions'.Repr + orGroups'.Repr + havingConds'.Repr + aggSpecs'.Repr)
    {
      hide Buffer.Valid;
      conditions' := conditions.Copy();
      orGroups' := orGroups.Copy();
      havingConds' := havingConds.Copy();
      aggSpecs' := aggSpecs.Copy();
    }

    method CopyNames() returns (sort': Buffer<(string, int)>, fields': Buffer<string>, groupFields': Buffer<string>)
      requires Valid()
      ensures sort'.Valid() && fields'.Valid() && groupFields'.Valid() && sort'.items == sort.items && fields'.items == fields.items && groupFields'.items == groupFields.items
      ensures sort'.Repr !! fields'.Repr !! groupFields'.Repr
      ensures fresh(sort'.Repr + fields'.Repr + groupFields'.Repr)
    {
      hide Buffer.Valid;
      sort' := sort.Copy();
      fields' := fields.Copy();
      groupFields' := groupFields.Copy();
    }

    /** The first builder error is the one that is kept. */
    method SetErr(e: Where.Error)
      requires Valid()
      modifies Repr
      ensures Valid() && Repr == old(Repr) && View() == old(View()) && err == FirstError(old(err), e)
    {
      hide Buffer.Valid, Wellformed;
      if err == None {
        err := Some(e);
      }
    }

    method AddConditions(cs: seq<Condition>)
      requires Valid() && AllBuilt(cs)
      modifies Repr
      ensures Valid() && fresh(Repr - old(Repr)) && err == old(err)
      ensures View() == old(View()).(conditions := old(View()).conditions + cs)
    {
      hide Buffer.Valid, Wellformed, AllBuilt;
      WellformedMore(View(), cs, AggSpec("", "", ""));
      conditions.Append(cs);
      Repr := Repr + conditions.Repr;
    }

    method AddHaving(cs: seq<Condition>)
      requires Valid() && AllBuilt(cs)
      modifies Repr
      ensures Valid() && fresh(Repr - old(Repr)) && err == old(err)
      ensures View() == old(View()).(havingConds := old(View()).havingConds + cs)
    {
      hide Buffer.Valid, Wellformed, AllBuilt;
      WellformedMore(View(), cs, AggSpec("", "", ""));
      havingConds.Append(cs);
      Repr := Repr + havingConds.Repr;
    }

    method AddGroup(cs: seq<Condition>)
      requires Valid() && AllBuilt(cs) && cs != []
      modifies Repr
      ensures Valid() && fresh(Repr - old(Repr)) && err == old(err)
      ensures View() == old(View()).(orGroups := old(View()).orGroups + [cs])
    {
      hide Buffer.Valid, Wellformed, AllBuilt;
      WellformedMore(View(), cs, AggSpec("", "", ""));
      orGroups.Append([cs]);
      Repr := Repr + orGroups.Repr;
    }

    method AddGroupFields(names: seq<string>)
      requires Valid()
      modifies Repr
      ensures Valid() && fresh(Repr - old(Repr)) && err == old(err)
      ensures View() == old(View()).(groupFields := old(View()).groupFields + names)
    {
      hide Buffer.Valid, Wellformed, AllBuilt;
      WellformedMore(View(), [], AggSpec("", "", ""));
      groupFields.Append(names);
      Repr := Repr + groupFields.Repr;
    }

    method AddAggregate(a: AggSpec)
      requires Valid() && AliasError(a.alias) == None
      modifies Repr
      ensures Valid() && fresh(Repr - old(Repr)) && err == old(err)
      ensures View() == old(View()).(aggSpecs := old(View()).aggSpecs + [a])
    {
      hide Buffer.Valid, Wellformed, AllBuilt, AliasError;
      WellformedMore(View(), [], a);
      aggSpecs.Append([a]);
      Repr := Repr + aggSpecs.Repr;
    }

    method Where(args: seq<Value>)
      requires Valid()
      modifies Repr
      ensures Valid() && fresh(Repr - old(Repr))
      ensures exists r :: Parses(args, r) &&
                match r
                case Ok(cs) => View() == old(View()).(conditions := old(View()).conditions + cs) && err == old(err)
                case Err(e) => View() == old(View()) && err == FirstError(old(err), e)
    {
      hide Separate, Wellformed, Parses;
      var r := ParseWhere(args);
      match r
      case Ok(cs) =>
        AddConditions(cs);
      case Err(e) => SetErr(e);
    }

    /** A failed or empty branch is a no-op. */
    method OrWhere(args: seq<Value>)
      requires Valid()
      modifies Repr
      ensures Valid() && fresh(Repr - old(Repr))
      ensures exists r :: Parses(args, r) &&
                match r
                case Ok(cs) => View() == old(View()).(orGroups := if cs == [] then old(View()).orGroups else old(View()).orGroups + [cs]) && err == old(err)
                case Err(e) => View() == old(View()) && err == FirstError(old(err), e)
    {
      hide Separate, Wellformed, Parses;
      var r := ParseWhere(args);
      match r
      case Ok(cs) =>
        if |cs| > 0 {
          AddGroup(cs);
        }
      case Err(e) => SetErr(e);
    }

    method Having(args: seq<Value>)
      requires Valid()
      modifies Repr
      ensures Valid() && fresh(Repr - old(Repr))
      ensures exists r :: Parses(args, r) &&
                match r
                case Ok(cs) => View() == old(View()).(havingConds := old(View()).havingConds + cs) && err == old(err)
                case Err(e) => View() == old(View()) && err == FirstError(old(err), e)
    {
      hide Separate, Wellformed, Parses;
      var r := ParseWhere(args);
      match r
      case Ok(cs) =>
        AddHaving(cs);
      case Err(e) => SetErr(e);
    }

    // The builders of one condition, each by what it adds to the meaning of the chain.

    method WhereNot(field: string, value: Value)
      requires Valid()
      modifies Repr
      ensures Valid() && fresh(Repr - old(Repr)) && err == old(err)
      ensures Narrowed(old(View()), View(), (w: World, rec: Record) => !EqualTo(Field(rec, field), value))
    {
      hide Separate, Wellformed;
      ghost var v := View();
      AddConditions([Condition(field, "$ne", value)]);
      OneMoreHolds(v.conditions, Condition(field, "$ne", value));
    }

    method WhereIn(field: string, values: Value)
      requires Valid()
      modifies Repr
      ensures Valid() && fresh(Repr - old(Repr)) && err == old(err)
      ensures Narrowed(old(View()), View(), (w: World, rec: Record) => OneOf(Field(rec, field), values))
    {
      hide Separate, Wellformed;
      ghost var v := View();
      AddConditions([Condition(field, "$in", values)]);
      OneMoreHolds(v.conditions, Condition(field, "$in", values));
    }

    method WhereNotIn(field: string, values: Value)
      requires Valid()
      modifies Repr
      ensures Valid() && fresh(Repr - old(Repr)) && err == old(err)
      ensures Narrowed(old(View()), View(), (w: World, rec: Record) => !OneOf(Field(rec, field), values))
    {
      hide Separate, Wellformed;
      ghost var v := View();
      AddConditions([Condition(field, "$nin", values)]);
      OneMoreHolds(v.conditions, Condition(field, "$nin", values));
    }

    method WhereNull(field: string)
      requires Valid()
      modifies Repr
      ensures Valid() && fresh(Repr - old(Repr)) && err == old(err)
      ensures Narrowed(old(View()), View(), (w: World, rec: Record) => EqualTo(Field(rec, field), Null))
    {
      hide Separate, Wellformed;
      ghost var v := View();
      AddConditions([Condition(field, "null", Null)]);
      OneMoreHolds(v.conditions, Condition(field, "null", Null));
    }

    method WhereNotNull(field: string)
      requires Valid()
      modifies Repr
      ensures Valid() && fresh(Repr - old(Repr)) && err == old(err)
      ensures Narrowed(old(View()), View(), (w: World, rec: Record) => !EqualTo(Field(rec, field), Null))
    {
      hide Separate, Wellformed;
      ghost var v := View();
      AddConditions([Condition(field, "notNull", Null)]);
      OneMoreHolds(v.conditions, Condition(field, "notNull", Null));
    }

    method WhereBetween(field: string, low: Value, high: Value)
      requires Valid()
      modifies Repr
      ensures Valid() && fresh(Repr - old(Repr)) && err == old(err)
      ensures Narrowed(old(View()), View(), (w: World, rec: Record) => AtLeast(Field(rec, field), low) && AtMost(Field(rec, field), high))
    {
      hide Separate, Wellformed;
      ghost var v := View();
      AddConditions([Condition(field, "between", List([low, high]))]);
      OneMoreHolds(v.conditions, Condition(field, "between", List([low, high])));
    }

    method WhereNotBetween(field: string, low: Value, high: Value)
      requires Valid()
      modifies Repr
      ensures Valid() && fresh(Repr - old(Repr)) && err == old(err)
      ensures Narrowed(old(View()), View(), (w: World, rec: Record) => !(AtLeast(Field(rec, field), low) && AtMost(Field(rec, field), high)))
    {
      hide Separate, Wellformed;
      ghost var v := View();
      AddConditions([Condition(field, "notBetween", List([low, high]))]);
      OneMoreHolds(v.conditions, Condition(field, "notBetween", List([low, high])));
    }

    method WhereLike(field: string, pattern: string)
      requires Valid()
      modifies Repr
      ensures Valid() && fresh(Repr - old(Repr)) && err == old(err)
      ensures Narrowed(old(View()), View(), (w: World, rec: Record) => LikeHolds(Str(pattern), Field(rec, field), EXACT))
    {
      hide Separate, Wellformed;
      ghost var v := View();
      AddConditions([Condition(field, "like", Str(pattern))]);
      OneMoreHolds(v.conditions, Condition(field, "like", Str(pattern)));
    }

    method WhereILike(field: string, pattern: string)
      requires Valid()
      modifies Repr
      ensures Valid() && fresh(Repr - old(Repr)) && err == old(err)
      ensures Narrowed(old(View()), View(), (w: World, rec: Record) => LikeHolds(Str(pattern), Field(rec, field), w.foldCase))
    {
      hide Separate, Wellformed;
      ghost var v := View();
      AddConditions([Condition(field, "ilike", Str(pattern))]);
      OneMoreHolds(v.conditions, Condition(field, "ilike", Str(pattern)));
    }

    // The same as or-groups of one condition.

    method OrWhereNot(field: string, value: Value)
      requires Valid()
      modifies Repr
      ensures Valid() && fresh(Repr - old(Repr)) && err == old(err)
      ensures Widened(old(View()), View(), (w: World, rec: Record) => !EqualTo(Field(rec, field), value))
    {
      hide Separate, Wellformed;
      AddGroup([Condition(field, "$ne", value)]);
      OneHolds(Condition(field, "$ne", value));
    }

    method OrWhereIn(field: string, values: Value)
      requires Valid()
      modifies Repr
      ensures Valid() && fresh(Repr - old(Repr)) && err == old(err)
      ensures Widened(old(View()), View(), (w: World, rec: Record) => OneOf(Field(rec, field), values))
    {
      hide Separate, Wellformed;
      AddGroup([Condition(field, "$in", values)]);
      OneHolds(Condition(field, "$in", values));
    }

    method OrWhereNotIn(field: string, values: Value)
      requires Valid()
      modifies Repr
      ensures Valid() && fresh(Repr - old(Repr)) && err == old(err)
      ensures Widened(old(View()), View(), (w: World, rec: Record) => !OneOf(Field(rec, field), values))
    {
      hide Separate, Wellformed;
      AddGroup([Condition(field, "$nin", values)]);
      OneHolds(Condition(field, "$nin", values));
    }

    method OrWhereNull(field: string)
      requires Valid()
      modifies Repr
      ensures Valid() && fresh(Repr - old(Repr)) && err == old(err)
      ensures Widened(old(View()), View(), (w: World, rec: Record) => EqualTo(Field(rec, field), Null))
    {
      hide Separate, Wellformed;
      AddGroup([Condition(field, "null", Null)]);
      OneHolds(Condition(field, "null", Null));
    }

    method OrWhereNotNull(field: string)
      requires Valid()
      modifies Repr
      ensures Valid() && fresh(Repr - old(Repr)) && err == old(err)
      ensures Widened(old(View()), View(), (w: World, rec: Record) => !EqualTo(Field(rec, field), Null))
    {
      hide Separate, Wellformed;
      AddGroup([Condition(field, "notNull", Null)]);
      OneHolds(Condition(field, "notNull", Null));
    }

    method OrWhereBetween(field: string, low: Value, high: Value)
      requires Valid()
      modifies Repr
      ensures Valid() && fresh(Repr - old(Repr)) && err == old(err)
      ensures Widened(old(View()), View(), (w: World, rec: Record) => AtLeast(Field(rec, field), low) && AtMost(Field(rec, field), high))
    {
      hide Separate, Wellformed;
      AddGroup([Condition(field, "between", List([low, high]))]);
      OneHolds(Condition(field, "between", List([low, high])));
    }

    method GroupBy(names: seq<string>)
      requires Valid()
      modifies Repr
      ensures Valid() && fresh(Repr - old(Repr))
      ensures if exists i :: 0 <= i < |names| && TrimSpace(names[i]) == "" then
                View() == old(View()) && err == FirstError(old(err), BlankGroupField)
              else View() == old(View()).(groupFields := old(View()).groupFields + names) && err == old(err)
    {
      hide Separate, Wellformed, TrimSpace;
      for i := 0 to |names|
        invariant forall j :: 0 <= j < i ==> TrimSpace(names[j]) != ""
        invariant Valid() && View() == old(View()) && err == old(err) && Repr == old(Repr)
      {
        if TrimSpace(names[i]) == "" {
          SetErr(BlankGroupField);
          return;
        }
      }
      AddGroupFields(names);
    }

    method AddAggSpec(alias: string, op: string, field: string)
      requires Valid()
      modifies Repr
      ensures Valid() && fresh(Repr - old(Repr))
      ensures match AliasError(alias)
              case None => View() == old(View()).(aggSpecs := old(View()).aggSpecs + [AggSpec(alias, op, field)]) && err == old(err)
              case Some(e) => View() == old(View()) && err == FirstError(old(err), e)
    {
      hide Separate, Wellformed;
      if TrimSpace(alias) == "" {
        SetErr(BlankAlias);
        return;
      }
      assert alias != "";
      if alias == "_id" {
        SetErr(ReservedAlias);
        return;
      }
      if alias[0] == '$' || '.' in alias {
        SetErr(MalformedAlias);
        return;
      }
      AddAggregate(AggSpec(alias, op, field));
    }

    /** SumAs, AvgAs, MinAs and MaxAs need a field; only CountAs goes without. */
    method AddFieldAggSpec(alias: string, op: string, field: string)
      requires Valid()
      modifies Repr
      ensures Valid() && fresh(Repr - old(Repr))
      ensures match (if TrimSpace(field) == "" then Some(BlankAggField) else AliasError(alias))
              case None => View() == old(View()).(aggSpecs := old(View()).aggSpecs + [AggSpec(alias, op, field)]) && err == old(err)
              case Some(e) => View() == old(View()) && err == FirstError(old(err), e)
    {
      hide Separate, Wellformed, TrimSpace, AliasError;
      if TrimSpace(field) == "" {
        SetErr(BlankAggField);
        return;
      }
      AddAggSpec(alias, op, field);
    }

    /** The filter document of the whole chain accepts exactly what the chain selects. */
    method Compile() returns (filter: Doc)
      requires Valid()
      ensures forall w, rec :: LikeSafe(View().conditions, rec) && GroupsSafe(View().orGroups, rec) ==>
                (Accepts(w, filter, rec) <==> Selects(w, View().conditions, View().orGroups, rec))
    {
      var conds := conditions.Read();
      var groups := orGroups.Read();
      hide Separate, LikeSafe, GroupsSafe, Accepts, Selects;
      filter := BuildFilter(conds, groups);
      forall w, rec | LikeSafe(conds, rec) && GroupsSafe(groups, rec)
        ensures Accepts(w, filter, rec) <==> Selects(w, conds, groups, rec)
      {
        QueryFilterMeans(w, conds, groups, rec);
      }
    }
  }

  /** One more condition, which holds when `p` does. */
  ghost predicate Narrowed(before: Plan, after: Plan, p: (World, Record) -> bool) {
    && after == before.(conditions := after.conditions)
    && |after.conditions| == |before.conditions| + 1 && before.conditions <= after.conditions
    && forall w, rec :: AllHold(w, after.conditions, rec) <==> AllHold(w, before.conditions, rec) && p(w, rec)
  }

  /** One more or-group, which holds when `p` does. */
  ghost predicate Widened(before: Plan, after: Plan, p: (World, Record) -> bool) {
    && after == before.(orGroups := after.orGroups)
    && |after.orGroups| == |before.orGroups| + 1 && before.orGroups <= after.orGroups
    && forall w, rec :: AllHold(w, after.orGroups[|before.orGroups|], rec) <==> p(w, rec)
  }

  lemma {:induction false} OneHolds(c: Condition)
    ensures forall w, rec :: AllHold(w, [c], rec) <==> Holds(w, c, rec)
  {
    hide Holds;
    assert [c][0] == c;
  }

  lemma {:induction false} OneMoreHolds(cs: seq<Condition>, c: Condition)
    ensures forall w, rec :: AllHold(w, cs + [c], rec) <==> AllHold(w, cs, rec) && Holds(w, c, rec)
  {
    var all := cs + [c];
    hide Holds;
    assert all[|cs|] == c;
    assert forall i :: 0 <= i < |cs| ==> all[i] == cs[i];
  }

  /** One more Where narrows: without or-groups the selection becomes the intersection. */
  lemma {:induction false} WhereNarrows(w: World, conditions: seq<Condition>, more: seq<Condition>, rec: Record)
    ensures Selects(w, conditions + more, [], rec) <==> Selects(w, conditions, [], rec) && AllHold(w, more, rec)
  {
    var all := conditions + more;
    hide Holds;
    assert forall i :: 0 <= i < |conditions| ==> all[i] == conditions[i];
    forall i | 0 <= i < |more| ensures AllHold(w, all, rec) ==> Holds(w, more[i], rec) {
      assert all[|conditions| + i] == more[i];
    }
    assert AllHold(w, all, rec) <==> AllHold(w, conditions, rec) && AllHold(w, more, rec);
  }

  /** One more OrWhere widens, once there is anything to widen; on an empty query it is the selection. */
  lemma {:induction false} OrWhereWidens(w: World, conditions: seq<Condition>, orGroups: seq<seq<Condition>>, group: seq<Condition>, rec: Record)
    requires group != []
    ensures Selects(w, conditions, orGroups + [group], rec) <==>
            AllHold(w, group, rec) || (Selects(w, conditions, orGroups, rec) && !(conditions == [] && NoGroup(orGroups)))
  {
    hide AllHold;
    var all := orGroups + [group];
    assert all[|orGroups|] == group;
    assert forall i :: 0 <= i < |orGroups| ==> all[i] == orGroups[i];
    if SomeGroupHolds(w, orGroups, rec) {
      var i :| 0 <= i < |orGroups| && orGroups[i] != [] && AllHold(w, orGroups[i], rec);
      assert all[i] == orGroups[i];
    }
  }
}
