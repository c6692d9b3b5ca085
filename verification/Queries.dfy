/**
 * Queries that nest: subqueries in FROM and common table expressions.  Planning a
 * statement leaves placeholders in it for its aggregate calls, and a common table
 * expression is planned anew at every reference.  So the planner is a state machine
 * over the bound query; it is proved to accept exactly the queries whose statements
 * can all be planned from scratch and in which no expression with aggregate calls is
 * referenced twice.
 */
module Queries {
  import opened Common
  import opened Plans
  import opened Binding
  import opened Relations
  import opened FromClause
  import opened Selects

  datatype From =
    | FromTable(table: string, alias: Option<string>, columns: Schema)
    | FromProduct(left: From, right: From)
    | FromJoin(join: JoinType, left: From, right: From, condition: Bound)
    | FromQuery(query: Query, subAlias: string)
    | FromCte(cteName: string, boundName: string)

  /** `itemId` is the binder's counter for unnamed select items. */
  datatype Query = Query(ctes: seq<Cte>, from: Option<From>, body: Body, itemId: nat)

  datatype Cte = Cte(name: string, query: Query)

  /** The first expression of that name. */
  function FindCte(scope: seq<Cte>, name: string): (r: Option<nat>)
    ensures r.Some? ==> r.value < |scope|
  {
    if scope == [] then None
    else if scope[0].name == name then Some(0)
    else
      var rest := FindCte(scope[1..], name);
      if rest.None? then None else Some(rest.value + 1)
  }

  // ---------------------------------------------------------------- sizes, for termination

  /** The number of statements and FROM nodes; expressions do not count. */
  function FromSize(from: From): nat
    decreases from
  {
    match from
    case FromProduct(left, right) => 1 + FromSize(left) + FromSize(right)
    case FromJoin(_, left, right, _) => 1 + FromSize(left) + FromSize(right)
    case FromQuery(query, _) => 1 + QuerySize(query)
    case _ => 1
  }

  function CtesSize(ctes: seq<Cte>): nat
    decreases ctes
  {
    if ctes == [] then 0 else QuerySize(ctes[0].query) + CtesSize(ctes[1..])
  }

  function QuerySize(q: Query): nat
    decreases q
  {
    1 + CtesSize(q.ctes) + if q.from.Some? then FromSize(q.from.value) else 0
  }

  lemma {:induction false} CteSize(ctes: seq<Cte>, i: nat)
    requires i < |ctes|
    ensures QuerySize(ctes[i].query) <= CtesSize(ctes)
  {
    if i > 0 {
      CteSize(ctes[1..], i - 1);
    }
  }

  lemma {:induction false} ReplacedSize(ctes: seq<Cte>, i: nat, c: Cte)
    requires i < |ctes| && QuerySize(c.query) == QuerySize(ctes[i].query)
    ensures CtesSize(ctes[i := c]) == CtesSize(ctes)
  {
    if i > 0 {
      assert ctes[i := c][1..] == ctes[1..][i - 1 := c];
      ReplacedSize(ctes[1..], i - 1, c);
    } else {
      assert ctes[i := c][1..] == ctes[1..];
    }
  }

  // ---------------------------------------------------------------- planning

  /** A planned statement and the name of each of its select items. */
  datatype Answer = Answer(plan: Plan, names: seq<seq<string>>)

  /** A planned FROM tree, and what planning has made of the tree and of the expressions in scope. */
  datatype FromPass = FromPass(ref: TableRef, from: From, scope: seq<Cte>)

  datatype QueryPass = QueryPass(answer: Answer, query: Query, scope: seq<Cte>)

  /** A statement without FROM reads one row of no columns. */
  function OneEmptyRow(): Plan {
    Plan(Values([[]]), [], [])
  }

  /** The statement's body over its FROM clause. */
  function PlanOverFrom(cat: Catalog, q: Query, ref: Option<TableRef>): Result<Answer> {
    var names := if ref.Some? then GetAllColumns(ref.value) else [];
    var from := if ref.Some? then PlanTableRef(cat, ref.value) else Ok(OneEmptyRow());
    if from.Err? then Err(from.reason)
    else if ref.None? && q.body.list.AllColumns? then Err("select * cannot be used here")
    else
      var plan := PlanBody(q.body, from.value, names);
      if plan.Err? then Err(plan.reason)
      else Ok(Answer(plan.value, ItemNames(ListItems(q.body.list, names), q.itemId)))
  }

  /** Plans the inner statements of a FROM tree from left to right; a reference plans its expression anew, as earlier
      references have left it.  The expressions of one WITH clause do not see each other. */
  function PlanFrom(cat: Catalog, from: From, scope: seq<Cte>): (r: Result<FromPass>)
    ensures r.Ok? ==> FromSize(r.value.from) == FromSize(from) && CtesSize(r.value.scope) == CtesSize(scope)
    decreases FromSize(from) + CtesSize(scope)
  {
    match from
    case FromTable(table, alias, columns) => Ok(FromPass(BaseTable(table, alias, columns), from, scope))
    case FromProduct(left, right) =>
      var l := PlanFrom(cat, left, scope);
      if l.Err? then l
      else
        var r := PlanFrom(cat, right, l.value.scope);
        if r.Err? then r
        else Ok(FromPass(CrossProduct(l.value.ref, r.value.ref), FromProduct(l.value.from, r.value.from),
                         r.value.scope))
    case FromJoin(join, left, right, condition) =>
      var l := PlanFrom(cat, left, scope);
      if l.Err? then l
      else
        var r := PlanFrom(cat, right, l.value.scope);
        if r.Err? then r
        else Ok(FromPass(JoinOn(join, l.value.ref, r.value.ref, condition),
                         FromJoin(join, l.value.from, r.value.from, condition), r.value.scope))
    case FromQuery(query, alias) =>
      var a := PlanQuery(cat, query, scope);
      if a.Err? then Err(a.reason)
      else Ok(FromPass(Subquery(Sub(a.value.answer.plan, a.value.answer.names, alias)),
                       FromQuery(a.value.query, alias), a.value.scope))
    case FromCte(name, boundName) =>
      var i := FindCte(scope, name);
      if i.None? then Err("CTE not found")
      else
        CteSize(scope, i.value);
        var a := PlanQuery(cat, scope[i.value].query, []);
        if a.Err? then Err(a.reason)
        else
          var c := Cte(scope[i.value].name, a.value.query);
          ReplacedSize(scope, i.value, c);
          Ok(FromPass(Subquery(Sub(a.value.answer.plan, a.value.answer.names, boundName)), from, scope[i.value := c]))
  }

  /** A statement with its own WITH clause replaces the expressions in scope. */
  function PlanQuery(cat: Catalog, q: Query, outer: seq<Cte>): (r: Result<QueryPass>)
    ensures r.Ok? ==> QuerySize(r.value.query) == QuerySize(q) && CtesSize(r.value.scope) == CtesSize(outer)
    decreases QuerySize(q) + CtesSize(outer)
  {
    var scope := if q.ctes == [] then outer else q.ctes;
    if q.from.None? then
      var a := PlanOverFrom(cat, q, None);
      if a.Err? then Err(a.reason) else Ok(QueryPass(a.value, q.(body := SpentBody(q.body)), outer))
    else
      var f := PlanFrom(cat, q.from.value, scope);
      if f.Err? then Err(f.reason)
      else
        var a := PlanOverFrom(cat, q, Some(f.value.ref));
        if a.Err? then Err(a.reason)
        else if q.ctes == [] then
          Ok(QueryPass(a.value, q.(from := Some(f.value.from), body := SpentBody(q.body)), f.value.scope))
        else
          Ok(QueryPass(a.value, Query(f.value.scope, Some(f.value.from), SpentBody(q.body), q.itemId), outer))
  }

  // ---------------------------------------------------------------- planning from scratch

  /** The same with every statement as the binder made it. */
  function FreshFrom(cat: Catalog, from: From, scope: seq<Cte>): Result<TableRef>
    decreases FromSize(from) + CtesSize(scope)
  {
    match from
    case FromTable(table, alias, columns) => Ok(BaseTable(table, alias, columns))
    case FromProduct(left, right) =>
      var l, r := FreshFrom(cat, left, scope), FreshFrom(cat, right, scope);
      if l.Err? then l else if r.Err? then r else Ok(CrossProduct(l.value, r.value))
    case FromJoin(join, left, right, condition) =>
      var l, r := FreshFrom(cat, left, scope), FreshFrom(cat, right, scope);
      if l.Err? then l else if r.Err? then r else Ok(JoinOn(join, l.value, r.value, condition))
    case FromQuery(query, alias) =>
      var a := FreshQuery(cat, query, scope);
      if a.Err? then Err(a.reason) else Ok(Subquery(Sub(a.value.plan, a.value.names, alias)))
    case FromCte(name, boundName) =>
      var i := FindCte(scope, name);
      if i.None? then Err("CTE not found")
      else
        CteSize(scope, i.value);
        var a := FreshQuery(cat, scope[i.value].query, []);
        if a.Err? then Err(a.reason) else Ok(Subquery(Sub(a.value.plan, a.value.names, boundName)))
  }

  function FreshQuery(cat: Catalog, q: Query, outer: seq<Cte>): Result<Answer>
    decreases QuerySize(q) + CtesSize(outer)
  {
    if q.from.None? then PlanOverFrom(cat, q, None)
    else
      var ref := FreshFrom(cat, q.from.value, if q.ctes == [] then outer else q.ctes);
      if ref.Err? then Err(ref.reason) else PlanOverFrom(cat, q, Some(ref.value))
  }

  // ---------------------------------------------------------------- the binder's walk over the same query

  /** A reference by another name overwrites the first part of every column name. */
  function Requalified(names: seq<seq<string>>, alias: string): (r: seq<seq<string>>)
    ensures |r| == |names|
    ensures forall i :: 0 <= i < |names| && names[i] != [] ==> r[i] == [alias] + names[i][1..]
  {
    seq(|names|, i requires 0 <= i < |names| => if names[i] == [] then [] else names[i][0 := alias])
  }

  /** The columns a star stands for. */
  function StarColumns(from: From, scope: seq<Cte>): seq<seq<string>>
    decreases FromSize(from) + CtesSize(scope)
  {
    match from
    case FromTable(table, alias, columns) =>
      seq(|columns|, i requires 0 <= i < |columns| => [BoundTableName(table, alias), columns[i].name])
    case FromProduct(left, right) => StarColumns(left, scope) + StarColumns(right, scope)
    case FromJoin(_, left, right, _) => StarColumns(left, scope) + StarColumns(right, scope)
    case FromQuery(query, alias) => Prefixed(alias, SelectNames(query, scope))
    case FromCte(name, boundName) =>
      var i := FindCte(scope, name);
      if i.None? then []
      else
        CteSize(scope, i.value);
        Requalified(Prefixed(scope[i.value].name, SelectNames(scope[i.value].query, [])), boundName)
  }

  /** The names of a statement's select items. */
  function SelectNames(q: Query, outer: seq<Cte>): seq<seq<string>>
    decreases QuerySize(q) + CtesSize(outer)
  {
    var columns := if q.from.None? then [] else StarColumns(q.from.value, if q.ctes == [] then outer else q.ctes);
    ItemNames(ListItems(q.body.list, columns), q.itemId)
  }

  lemma RequalifiedPrefix(name: string, names: seq<seq<string>>, alias: string)
    ensures Requalified(Prefixed(name, names), alias) == Prefixed(alias, names)
  {
  }

  /** For every FROM tree, however deep, the binder's columns are those of the planned tree. */
  lemma {:induction false} StarColumnsAgree(cat: Catalog, from: From, scope: seq<Cte>)
    requires FreshFrom(cat, from, scope).Ok?
    ensures GetAllColumns(FreshFrom(cat, from, scope).value) == StarColumns(from, scope)
    decreases FromSize(from) + CtesSize(scope)
  {
    match from
    case FromTable(_, _, _) =>
    case FromProduct(left, right) =>
      StarColumnsAgree(cat, left, scope);
      StarColumnsAgree(cat, right, scope);
    case FromJoin(_, left, right, _) =>
      StarColumnsAgree(cat, left, scope);
      StarColumnsAgree(cat, right, scope);
    case FromQuery(query, alias) => SelectNamesAgree(cat, query, scope);
    case FromCte(name, boundName) =>
      var i := FindCte(scope, name).value;
      CteSize(scope, i);
      SelectNamesAgree(cat, scope[i].query, []);
      RequalifiedPrefix(scope[i].name, SelectNames(scope[i].query, []), boundName);
  }

  lemma {:induction false} SelectNamesAgree(cat: Catalog, q: Query, outer: seq<Cte>)
    requires FreshQuery(cat, q, outer).Ok?
    ensures FreshQuery(cat, q, outer).value.names == SelectNames(q, outer)
    decreases QuerySize(q) + CtesSize(outer)
  {
    hide PlanBody, PlanTableRef, ItemNames, ListItems, GetAllColumns;
    if q.from.Some? {
      StarColumnsAgree(cat, q.from.value, if q.ctes == [] then outer else q.ctes);
    }
  }

  // ---------------------------------------------------------------- what planning touches

  predicate Within(ms: seq<nat>, n: nat) {
    forall j :: 0 <= j < |ms| ==> ms[j] < n
  }

  lemma WithinAt(ms: seq<nat>, n: nat, j: nat)
    requires Within(ms, n) && j < |ms|
    ensures ms[j] < n
  {
  }

  lemma NothingWithin(ms: seq<nat>)
    requires Within(ms, 0)
    ensures ms == []
  {
    if ms != [] {
      WithinAt(ms, 0, 0);
    }
  }

  /** The positions of the expressions in scope that the tree refers to, in the order of planning. */
  function Mentions(from: From, scope: seq<Cte>): (r: seq<nat>)
    ensures Within(r, |scope|)
    decreases from
  {
    match from
    case FromTable(_, _, _) => []
    case FromProduct(left, right) => Mentions(left, scope) + Mentions(right, scope)
    case FromJoin(_, left, right, _) => Mentions(left, scope) + Mentions(right, scope)
    case FromQuery(query, _) => QueryMentions(query, scope)
    case FromCte(name, _) => if FindCte(scope, name).Some? then [FindCte(scope, name).value] else []
  }

  /** A statement with its own WITH clause does not see the expressions outside. */
  function QueryMentions(q: Query, scope: seq<Cte>): (r: seq<nat>)
    ensures Within(r, |scope|)
    decreases q
  {
    if q.ctes == [] && q.from.Some? then Mentions(q.from.value, scope) else []
  }

  /** The trees planning leaves behind. */
  function SpentFrom(from: From): From
    decreases from
  {
    match from
    case FromProduct(left, right) => FromProduct(SpentFrom(left), SpentFrom(right))
    case FromJoin(join, left, right, condition) => FromJoin(join, SpentFrom(left), SpentFrom(right), condition)
    case FromQuery(query, alias) => FromQuery(SpentQuery(query), alias)
    case _ => from
  }

  function SpentQuery(q: Query): Query
    decreases q
  {
    if q.from.None? then q.(body := SpentBody(q.body))
    else
      var used := Mentions(q.from.value, q.ctes);
      Query(seq(|q.ctes|, i requires 0 <= i < |q.ctes|
                  => if i in used then Cte(q.ctes[i].name, SpentQuery(q.ctes[i].query)) else q.ctes[i]),
            Some(SpentFrom(q.from.value)), SpentBody(q.body), q.itemId)
  }

  /** Planning the tree collects no aggregate call at any depth. */
  predicate FromCallFree(from: From)
    decreases from
  {
    match from
    case FromProduct(left, right) => FromCallFree(left) && FromCallFree(right)
    case FromJoin(_, left, right, _) => FromCallFree(left) && FromCallFree(right)
    case FromQuery(query, _) => QueryCallFree(query)
    case _ => true
  }

  predicate QueryCallFree(q: Query)
    decreases q
  {
    && BodyCalls(q.body) == []
    && (q.from.Some? ==>
          && FromCallFree(q.from.value)
          && forall i :: 0 <= i < |q.ctes| && i in Mentions(q.from.value, q.ctes) ==> QueryCallFree(q.ctes[i].query))
  }

  /** Each expression mentioned is one that can be planned, and one that was planned before has no calls. */
  predicate Fine(scope: seq<Cte>, planned: set<nat>, mentioned: seq<nat>)
    requires Within(mentioned, |scope|)
    decreases scope, 0, |mentioned|
  {
    mentioned == []
    || (var i := mentioned[0];
        && QueryOnce(scope[i].query) && (i in planned ==> QueryCallFree(scope[i].query))
        && Fine(scope, planned + {i}, mentioned[1..]))
  }

  predicate FromOnce(from: From)
    decreases from
  {
    match from
    case FromProduct(left, right) => FromOnce(left) && FromOnce(right)
    case FromJoin(_, left, right, _) => FromOnce(left) && FromOnce(right)
    case FromQuery(query, _) => QueryOnce(query)
    case _ => true
  }

  /** At no depth is an expression with aggregate calls referenced twice. */
  predicate QueryOnce(q: Query)
    decreases q
  {
    q.from.Some? ==> FromOnce(q.from.value) && Fine(q.ctes, {}, Mentions(q.from.value, q.ctes))
  }

  // ---------------------------------------------------------------- names are all that matters for mentions

  ghost predicate SameCtes(a: seq<Cte>, b: seq<Cte>) {
    |a| == |b| && forall i :: 0 <= i < |a| ==> a[i].name == b[i].name
  }

  lemma {:induction false} FindAlike(a: seq<Cte>, b: seq<Cte>, name: string)
    requires SameCtes(a, b)
    ensures FindCte(a, name) == FindCte(b, name)
  {
    if a != [] {
      assert a[0].name == b[0].name;
      assert forall i :: 0 <= i < |a| - 1 ==> a[1..][i] == a[i + 1] && b[1..][i] == b[i + 1];
      FindAlike(a[1..], b[1..], name);
    }
  }

  lemma {:induction false} MentionsAlike(from: From, a: seq<Cte>, b: seq<Cte>)
    requires SameCtes(a, b)
    ensures Mentions(from, a) == Mentions(from, b)
    decreases from
  {
    hide SameCtes;
    match from
    case FromProduct(left, right) =>
      MentionsAlike(left, a, b);
      MentionsAlike(right, a, b);
    case FromJoin(_, left, right, _) =>
      MentionsAlike(left, a, b);
      MentionsAlike(right, a, b);
    case FromQuery(query, _) =>
      if query.ctes == [] && query.from.Some? {
        MentionsAlike(query.from.value, a, b);
      }
    case FromCte(name, _) => FindAlike(a, b, name);
    case _ =>
  }

  /** The tree left behind mentions the same expressions. */
  lemma {:induction false} SpentMentions(from: From, scope: seq<Cte>)
    ensures Mentions(SpentFrom(from), scope) == Mentions(from, scope)
    decreases from
  {
    match from
    case FromProduct(left, right) =>
      SpentMentions(left, scope);
      SpentMentions(right, scope);
    case FromJoin(_, left, right, _) =>
      SpentMentions(left, scope);
      SpentMentions(right, scope);
    case FromQuery(query, _) =>
      if query.ctes == [] && query.from.Some? {
        SpentMentions(query.from.value, scope);
      }
    case _ =>
  }

  /** Planning changes expressions in scope, not their names, and only those that are mentioned. */
  lemma {:induction false} ScopeKept(cat: Catalog, from: From, scope: seq<Cte>)
    requires PlanFrom(cat, from, scope).Ok?
    ensures var after := PlanFrom(cat, from, scope).value.scope;
            && SameCtes(scope, after)
            && forall i :: 0 <= i < |scope| && i !in Mentions(from, scope) ==> after[i] == scope[i]
    decreases FromSize(from) + CtesSize(scope)
  {
    match from
    case FromTable(_, _, _) =>
    case FromProduct(left, right) => PairKept(cat, left, right, scope);
    case FromJoin(_, left, right, _) => PairKept(cat, left, right, scope);
    case FromQuery(query, _) =>
      if query.ctes == [] && query.from.Some? {
        ScopeKept(cat, query.from.value, scope);
      }
    case FromCte(name, _) =>
  }

  lemma {:induction false} PairKept(cat: Catalog, left: From, right: From, scope: seq<Cte>)
    requires PlanFrom(cat, left, scope).Ok? && PlanFrom(cat, right, PlanFrom(cat, left, scope).value.scope).Ok?
    ensures var after := PlanFrom(cat, right, PlanFrom(cat, left, scope).value.scope).value.scope;
            && SameCtes(scope, after)
            && forall i :: 0 <= i < |scope| && i !in Mentions(left, scope) + Mentions(right, scope)
                 ==> after[i] == scope[i]
    decreases FromSize(left) + FromSize(right) + CtesSize(scope), 0
  {
    var mid := PlanFrom(cat, left, scope).value.scope;
    LeafSize(left);
    LeafSize(right);
    ScopeKept(cat, left, scope);
    ScopeKept(cat, right, mid);
    MentionsAlike(right, scope, mid);
  }

  lemma LeafSize(from: From)
    ensures FromSize(from) >= 1
  {
  }

  // ---------------------------------------------------------------- planning a second time

  /** A statement that collects no call at any depth is left as it is. */
  lemma {:induction false} CallFreeFromSame(from: From)
    requires FromCallFree(from)
    ensures SpentFrom(from) == from
    decreases from
  {
    match from
    case FromProduct(left, right) =>
      CallFreeFromSame(left);
      CallFreeFromSame(right);
    case FromJoin(_, left, right, _) =>
      CallFreeFromSame(left);
      CallFreeFromSame(right);
    case FromQuery(query, _) => CallFreeSame(query);
    case _ =>
  }

  lemma {:induction false} CallFreeSame(q: Query)
    requires QueryCallFree(q)
    ensures SpentQuery(q) == q
    decreases q
  {
    SpentBodySame(q.body);
    if q.from.Some? {
      CallFreeFromSame(q.from.value);
      var used := Mentions(q.from.value, q.ctes);
      forall i | 0 <= i < |q.ctes| && i in used ensures SpentQuery(q.ctes[i].query) == q.ctes[i].query {
        CallFreeSame(q.ctes[i].query);
      }
      assert SpentQuery(q).ctes == q.ctes;
    }
  }

  /** A tree is planned only if every expression it mentions can be, as it is found. */
  lemma {:induction false} MentionPlanned(cat: Catalog, from: From, scope: seq<Cte>, i: nat)
    requires PlanFrom(cat, from, scope).Ok? && i in Mentions(from, scope)
    ensures i < |scope| && PlanQuery(cat, scope[i].query, []).Ok?
    decreases FromSize(from)
  {
    match from
    case FromProduct(left, right) => PairPlanned(cat, left, right, scope, i);
    case FromJoin(_, left, right, _) => PairPlanned(cat, left, right, scope, i);
    case FromQuery(query, _) => MentionPlanned(cat, query.from.value, scope, i);
    case FromCte(name, _) =>
  }

  lemma {:induction false} PairPlanned(cat: Catalog, left: From, right: From, scope: seq<Cte>, i: nat)
    requires PlanFrom(cat, left, scope).Ok? && PlanFrom(cat, right, PlanFrom(cat, left, scope).value.scope).Ok?
    requires i in Mentions(left, scope) + Mentions(right, scope)
    ensures i < |scope| && PlanQuery(cat, scope[i].query, []).Ok?
    decreases FromSize(left) + FromSize(right), 0
  {
    LeafSize(left);
    LeafSize(right);
    if i in Mentions(left, scope) {
      MentionPlanned(cat, left, scope, i);
    } else {
      var mid := PlanFrom(cat, left, scope).value.scope;
      ScopeKept(cat, left, scope);
      MentionsAlike(right, scope, mid);
      MentionPlanned(cat, right, mid, i);
    }
  }

  /** What has been planned and had calls cannot be planned again, whatever is in scope. */
  lemma {:induction false} FromNotAgain(cat: Catalog, from: From, scope: seq<Cte>)
    requires !FromCallFree(from)
    ensures PlanFrom(cat, SpentFrom(from), scope).Err?
    decreases FromSize(from)
  {
    match from
    case FromProduct(left, right) => PairNotAgain(cat, left, right, scope);
    case FromJoin(_, left, right, _) => PairNotAgain(cat, left, right, scope);
    case FromQuery(query, _) => NotAgain(cat, query, scope);
    case _ =>
  }

  lemma {:induction false} PairNotAgain(cat: Catalog, left: From, right: From, scope: seq<Cte>)
    requires !FromCallFree(left) || !FromCallFree(right)
    ensures var l := PlanFrom(cat, SpentFrom(left), scope);
            l.Err? || PlanFrom(cat, SpentFrom(right), l.value.scope).Err?
    decreases FromSize(left) + FromSize(right), 0
  {
    LeafSize(left);
    LeafSize(right);
    if !FromCallFree(left) {
      FromNotAgain(cat, left, scope);
    } else if PlanFrom(cat, SpentFrom(left), scope).Ok? {
      FromNotAgain(cat, right, PlanFrom(cat, SpentFrom(left), scope).value.scope);
    }
  }

  lemma BodyNotAgain(cat: Catalog, q: Query, again: Query, ref: Option<TableRef>)
    requires BodyCalls(q.body) != [] && again.body == SpentBody(q.body)
    ensures PlanOverFrom(cat, again, ref).Err?
  {
    hide PlanBody, BodyCalls, SpentBody, PlanTableRef;
    var names := if ref.Some? then GetAllColumns(ref.value) else [];
    var from := if ref.Some? then PlanTableRef(cat, ref.value) else Ok(OneEmptyRow());
    if from.Ok? {
      SpentBodyFails(q.body, from.value, names);
    }
  }

  lemma {:induction false} NotAgain(cat: Catalog, q: Query, outer: seq<Cte>)
    requires !QueryCallFree(q)
    ensures PlanQuery(cat, SpentQuery(q), outer).Err?
    decreases QuerySize(q)
  {
    hide PlanOverFrom, PlanFrom, FromCallFree, BodyCalls, SpentBody, SpentFrom, Mentions;
    var again := SpentQuery(q);
    if BodyCalls(q.body) != [] {
      BodyNotAgain(cat, q, again, None);
      if again.from.Some? {
        var f := PlanFrom(cat, again.from.value, if again.ctes == [] then outer else again.ctes);
        if f.Ok? {
          BodyNotAgain(cat, q, again, Some(f.value.ref));
        }
      }
    } else if !FromCallFree(q.from.value) {
      FromNotAgain(cat, q.from.value, if again.ctes == [] then outer else again.ctes);
    } else {
      var i :| 0 <= i < |q.ctes| && i in Mentions(q.from.value, q.ctes) && !QueryCallFree(q.ctes[i].query);
      CteSize(q.ctes, i);
      NotAgain(cat, q.ctes[i].query, []);
      MentionNotAgain(cat, q, i);
    }
  }

  lemma {:induction false} MentionNotAgain(cat: Catalog, q: Query, i: nat)
    requires q.from.Some? && i < |q.ctes| && i in Mentions(q.from.value, q.ctes)
    requires PlanQuery(cat, SpentQuery(q.ctes[i].query), []).Err?
    ensures PlanFrom(cat, SpentFrom(q.from.value), SpentQuery(q).ctes).Err?
  {
    hide PlanFrom, PlanQuery, SpentFrom, Mentions;
    var again := SpentQuery(q);
    SpentMentions(q.from.value, again.ctes);
    MentionsAlike(q.from.value, q.ctes, again.ctes);
    if PlanFrom(cat, again.from.value, again.ctes).Ok? {
      MentionPlanned(cat, again.from.value, again.ctes, i);
    }
  }

  // ---------------------------------------------------------------- the planner against planning from scratch

  /** The expressions in scope once those in `planned` have been planned. */
  function SpentScope(scope: seq<Cte>, planned: set<nat>): (r: seq<Cte>)
    ensures |r| == |scope|
  {
    seq(|scope|, i requires 0 <= i < |scope|
          => if i in planned then Cte(scope[i].name, SpentQuery(scope[i].query)) else scope[i])
  }

  function Listed(ms: seq<nat>): set<nat> {
    set m | m in ms
  }

  /** Those already planned could be planned. */
  ghost predicate WerePlanned(cat: Catalog, scope: seq<Cte>, planned: set<nat>) {
    forall i :: i in planned ==>
                  i < |scope| && FreshQuery(cat, scope[i].query, []).Ok? && QueryOnce(scope[i].query)
  }

  lemma {:induction false} FineConcat(scope: seq<Cte>, planned: set<nat>, a: seq<nat>, b: seq<nat>)
    requires Within(a, |scope|) && Within(b, |scope|)
    ensures Within(a + b, |scope|)
    ensures Fine(scope, planned, a + b) <==> Fine(scope, planned, a) && Fine(scope, planned + Listed(a), b)
    decreases |a|
  {
    hide QueryOnce, QueryCallFree;
    if a == [] {
      assert a + b == b && planned + Listed(a) == planned;
    } else {
      assert (a + b)[0] == a[0] && (a + b)[1..] == a[1..] + b;
      FineConcat(scope, planned + {a[0]}, a[1..], b);
      assert planned + Listed(a) == planned + {a[0]} + Listed(a[1..]);
    }
  }

  /** The planner, where `planned` have been planned before, against planning from scratch. */
  ghost predicate FromAgrees(cat: Catalog, from: From, scope: seq<Cte>, planned: set<nat>) {
    var p, scratch := PlanFrom(cat, from, SpentScope(scope, planned)), FreshFrom(cat, from, scope);
    var ms := Mentions(from, scope);
    && (p.Ok? <==> scratch.Ok? && FromOnce(from) && Fine(scope, planned, ms))
    && (p.Ok? ==> && p.value == FromPass(scratch.value, SpentFrom(from), SpentScope(scope, planned + Listed(ms)))
                  && WerePlanned(cat, scope, planned + Listed(ms)))
  }

  ghost predicate QueryAgrees(cat: Catalog, q: Query, scope: seq<Cte>, planned: set<nat>) {
    var p, scratch := PlanQuery(cat, q, SpentScope(scope, planned)), FreshQuery(cat, q, scope);
    var ms := QueryMentions(q, scope);
    && (p.Ok? <==> scratch.Ok? && QueryOnce(q) && Fine(scope, planned, ms))
    && (p.Ok? ==> && p.value == QueryPass(scratch.value, SpentQuery(q), SpentScope(scope, planned + Listed(ms)))
                  && WerePlanned(cat, scope, planned + Listed(ms)))
  }

  lemma Untouched(scope: seq<Cte>, planned: set<nat>)
    ensures planned + Listed([]) == planned && SpentScope(scope, {}) == scope
  {
  }

  lemma {:induction false} FromPlans(cat: Catalog, from: From, scope: seq<Cte>, planned: set<nat>)
    requires WerePlanned(cat, scope, planned)
    ensures FromAgrees(cat, from, scope, planned)
    decreases FromSize(from) + CtesSize(scope)
  {
    match from
    case FromTable(_, _, _) => Untouched(scope, planned);
    case FromProduct(left, right) => PairPlans(cat, from, left, right, scope, planned);
    case FromJoin(_, left, right, _) => PairPlans(cat, from, left, right, scope, planned);
    case FromQuery(query, _) => QueryPlans(cat, query, scope, planned);
    case FromCte(name, _) =>
      SameNamesSpent(scope, planned);
      FindAlike(scope, SpentScope(scope, planned), name);
      var i := FindCte(scope, name);
      if i.Some? {
        CteSize(scope, i.value);
        CtePlans(cat, scope, planned, i.value);
        CteFromPlans(cat, from, scope, planned, i.value);
      }
  }

  lemma SameNamesSpent(scope: seq<Cte>, planned: set<nat>)
    ensures SameCtes(scope, SpentScope(scope, planned))
  {
  }

  /** One reference: planned before and with calls it fails, otherwise it is as good as new. */
  lemma {:induction false} CtePlans(cat: Catalog, scope: seq<Cte>, planned: set<nat>, i: nat)
    requires WerePlanned(cat, scope, planned) && i < |scope|
    ensures CteAgrees(cat, scope, planned, i)
    decreases CtesSize(scope), 1
  {
    hide PlanQuery, FreshQuery, QueryOnce, QueryCallFree, SpentQuery;
    var o := scope[i].query;
    CteSize(scope, i);
    if i in planned && !QueryCallFree(o) {
      NotAgain(cat, o, []);
    } else {
      if i in planned {
        CallFreeSame(o);
      }
      assert SpentScope(scope, planned)[i].query == o;
      QueryPlans(cat, o, [], {});
      AgreesAlone(cat, o);
    }
  }

  ghost predicate CteAgrees(cat: Catalog, scope: seq<Cte>, planned: set<nat>, i: nat)
    requires i < |scope|
  {
    var o := scope[i].query;
    var p := PlanQuery(cat, SpentScope(scope, planned)[i].query, []);
    && (p.Ok? <==> FreshQuery(cat, o, []).Ok? && QueryOnce(o) && (i in planned ==> QueryCallFree(o)))
    && (p.Ok? ==> p.value.answer == FreshQuery(cat, o, []).value && p.value.query == SpentQuery(o))
  }

  lemma CteFromPlans(cat: Catalog, from: From, scope: seq<Cte>, planned: set<nat>, i: nat)
    requires WerePlanned(cat, scope, planned) && from.FromCte? && FindCte(scope, from.cteName) == Some(i)
    requires FindCte(SpentScope(scope, planned), from.cteName) == Some(i) && CteAgrees(cat, scope, planned, i)
    ensures FromAgrees(cat, from, scope, planned)
  {
    hide PlanQuery, FreshQuery, QueryOnce, QueryCallFree, SpentQuery;
    var o := scope[i].query;
    assert Mentions(from, scope) == [i] && Listed([i]) == {i};
    assert Fine(scope, planned + {i}, [i][1..]);
    assert Fine(scope, planned, [i]) <==> QueryOnce(o) && (i in planned ==> QueryCallFree(o));
    assert SpentScope(scope, planned)[i := Cte(scope[i].name, SpentQuery(o))] == SpentScope(scope, planned + {i});
  }

  lemma AgreesAlone(cat: Catalog, q: Query)
    requires QueryAgrees(cat, q, [], {})
    ensures var p := PlanQuery(cat, q, []);
            && (p.Ok? <==> FreshQuery(cat, q, []).Ok? && QueryOnce(q))
            && (p.Ok? ==> p.value.answer == FreshQuery(cat, q, []).value && p.value.query == SpentQuery(q))
  {
    hide PlanQuery, FreshQuery, QueryOnce, SpentQuery;
    assert SpentScope([], {}) == [];
    NothingWithin(QueryMentions(q, []));
  }

  lemma {:induction false} PairPlans(cat: Catalog, from: From, left: From, right: From, scope: seq<Cte>,
                                     planned: set<nat>)
    requires WerePlanned(cat, scope, planned)
    requires from == FromProduct(left, right) || (from.FromJoin? && from.left == left && from.right == right)
    ensures FromAgrees(cat, from, scope, planned)
    decreases FromSize(from) + CtesSize(scope), 0
  {
    hide WerePlanned, Fine, SpentScope, Mentions, SpentFrom, FromOnce;
    var a, b := Mentions(left, scope), Mentions(right, scope);
    FromPlans(cat, left, scope, planned);
    FineConcat(scope, planned, a, b);
    if PlanFrom(cat, left, SpentScope(scope, planned)).Ok? {
      FromPlans(cat, right, scope, planned + Listed(a));
    }
    PairAgrees(cat, from, left, right, scope, planned);
  }

  lemma {:induction false} PairAgrees(cat: Catalog, from: From, left: From, right: From, scope: seq<Cte>,
                                      planned: set<nat>)
    requires from == FromProduct(left, right) || (from.FromJoin? && from.left == left && from.right == right)
    requires FromAgrees(cat, left, scope, planned)
    requires PlanFrom(cat, left, SpentScope(scope, planned)).Ok?
             ==> FromAgrees(cat, right, scope, planned + Listed(Mentions(left, scope)))
    requires Fine(scope, planned, Mentions(left, scope) + Mentions(right, scope))
             <==> && Fine(scope, planned, Mentions(left, scope))
                  && Fine(scope, planned + Listed(Mentions(left, scope)), Mentions(right, scope))
    ensures FromAgrees(cat, from, scope, planned)
  {
    hide WerePlanned, Fine, SpentScope, Within;
    var a, b := Mentions(left, scope), Mentions(right, scope);
    assert planned + Listed(a + b) == planned + Listed(a) + Listed(b);
  }

  lemma {:induction false} QueryPlans(cat: Catalog, q: Query, scope: seq<Cte>, planned: set<nat>)
    requires WerePlanned(cat, scope, planned)
    ensures QueryAgrees(cat, q, scope, planned)
    decreases QuerySize(q) + CtesSize(scope), 0
  {
    hide PlanOverFrom, SpentBody;
    Untouched(scope, planned);
    if q.from.Some? {
      if q.ctes == [] {
        FromPlans(cat, q.from.value, scope, planned);
        NoCtesAgree(cat, q, scope, planned);
      } else {
        FromPlans(cat, q.from.value, q.ctes, {});
        OwnCtesAgree(cat, q, scope, planned);
      }
    }
  }

  lemma NoCtesAgree(cat: Catalog, q: Query, scope: seq<Cte>, planned: set<nat>)
    requires q.from.Some? && q.ctes == [] && FromAgrees(cat, q.from.value, scope, planned)
    ensures QueryAgrees(cat, q, scope, planned)
  {
    hide PlanOverFrom, SpentBody, PlanFrom, FreshFrom, WerePlanned, SpentScope, FromOnce, SpentFrom, Mentions;
    NothingWithin(Mentions(q.from.value, []));
    assert SpentQuery(q) == Query([], Some(SpentFrom(q.from.value)), SpentBody(q.body), q.itemId);
    assert Fine(q.ctes, {}, Mentions(q.from.value, q.ctes));
    var p := PlanQuery(cat, q, SpentScope(scope, planned));
    assert p.Ok? ==> p.value.query == SpentQuery(q);
  }

  lemma OwnCtesAgree(cat: Catalog, q: Query, scope: seq<Cte>, planned: set<nat>)
    requires q.from.Some? && q.ctes != [] && FromAgrees(cat, q.from.value, q.ctes, {})
    requires WerePlanned(cat, scope, planned)
    ensures QueryAgrees(cat, q, scope, planned)
  {
    hide PlanOverFrom, SpentBody, PlanFrom, FreshFrom, FromOnce, SpentFrom, Mentions;
    Untouched(scope, planned);
    Untouched(q.ctes, {});
    var used := Mentions(q.from.value, q.ctes);
    assert {} + Listed(used) == Listed(used);
    assert SpentQuery(q).ctes == SpentScope(q.ctes, Listed(used));
    assert QueryMentions(q, scope) == [] && Fine(scope, planned, []);
    var p := PlanQuery(cat, q, SpentScope(scope, planned));
    assert p.Ok? <==> FreshQuery(cat, q, scope).Ok? && QueryOnce(q);
    assert p.Ok? ==> p.value.query == SpentQuery(q);
    assert p.Ok? ==> p.value.answer == FreshQuery(cat, q, scope).value;
    assert p.Ok? ==> p.value.scope == SpentScope(scope, planned + Listed([]));
  }

  /** The planner accepts a query exactly when all its statements can be planned from scratch and no expression with
      aggregate calls is referenced twice; it then plans the same, and leaves placeholders where it found calls. */
  lemma PlansLikeScratch(cat: Catalog, q: Query)
    ensures var p := PlanQuery(cat, q, []);
            && (p.Ok? <==> FreshQuery(cat, q, []).Ok? && QueryOnce(q))
            && (p.Ok? ==> p.value.answer == FreshQuery(cat, q, []).value && p.value.query == SpentQuery(q))
  {
    hide PlanQuery, FreshQuery, QueryOnce, SpentQuery;
    QueryPlans(cat, q, [], {});
    AgreesAlone(cat, q);
  }

  /** A statement that has been planned can be planned a second time if and only if it collects no aggregate call at
      any depth. */
  lemma PlansAgainExactly(cat: Catalog, q: Query)
    requires PlanQuery(cat, q, []).Ok?
    ensures PlanQuery(cat, PlanQuery(cat, q, []).value.query, []).Ok? <==> QueryCallFree(q)
  {
    hide PlanQuery, FreshQuery, QueryOnce, SpentQuery, QueryCallFree;
    PlansLikeScratch(cat, q);
    if QueryCallFree(q) {
      CallFreeSame(q);
    } else {
      NotAgain(cat, q, []);
    }
  }
}
