/** The filtered execution history query: `fetchFlowHistory` with its eight
    filter and paging arguments builds a SQL text and a parameter list. The
    text is modelled as a string and the parameters as values; the database's
    evaluation of the query is outside the model. */
module FlowHistory {
  import opened Common

  datatype Param = PStr(s: string) | PInt(i: int)

  /** One filter condition of the query, in the order the builder adds them. */
  datatype Cond =
    | ProjectLike(project: string)
    | FlowLike(flow: string)
    | UserLike(user: string)
    | StatusIs(status: int)
    | StartAfter(startTime: int)
    | EndBefore(endTime: int)

  // The SQL fragments. Each `?` placeholder is a piece of its own.
  function Hole(): string { "?" }
  function BaseQuery(): string { "SELECT exec_id, enc_type, " + "flow_data FROM execution_flows " }
  function ProjectText(): string { " ef JOIN projects p ON " + "ef.project_id = p.id " + "WHERE name LIKE " }
  function FlowText(): string { " flow_id LIKE " }
  function UserText(): string { " submit_user LIKE " }
  function StatusText(): string { " status = " }
  function StartText(): string { " start_time > " }
  function EndText(): string { " end_time < " }
  function PagingText(): string { "  ORDER BY exec_id DESC LIMIT " }
  function PagingSep(): string { ", " }
  function PagingClause(): string { PagingText() + Hole() + PagingSep() + Hole() }

  /** A string filter is applied when it is neither null nor empty. */
  predicate Given(o: Option<string>) {
    o.Some? && o.value != ""
  }

  function AddIf(cs: seq<Cond>, b: bool, c: Cond): seq<Cond> {
    if b then cs + [c] else cs
  }

  /** The text filters the arguments ask for: a string filter is applied
      when it is given. */
  function TextConds(project: Option<string>, flow: Option<string>, user: Option<string>): seq<Cond> {
    var c0 := AddIf([], Given(project), ProjectLike(project.GetOr("")));
    var c1 := AddIf(c0, Given(flow), FlowLike(flow.GetOr("")));
    AddIf(c1, Given(user), UserLike(user.GetOr("")))
  }

  /** The numeric filters after `cs`: a zero status and non-positive times
      mean "no filter". */
  function NumericConds(cs: seq<Cond>, status: int, startTime: int, endTime: int): seq<Cond> {
    var c3 := AddIf(cs, status != 0, StatusIs(status));
    var c4 := AddIf(c3, startTime > 0, StartAfter(startTime));
    AddIf(c4, endTime > 0, EndBefore(endTime))
  }

  /** The conditions the arguments ask for, in the builder's order. */
  function Conds(project: Option<string>, flow: Option<string>, user: Option<string>,
                 status: int, startTime: int, endTime: int): seq<Cond>
  {
    NumericConds(TextConds(project, flow, user), status, startTime, endTime)
  }

  /** The SQL text of a condition in front of its placeholder. The project
      filter carries its own join and WHERE keyword. */
  function CondText(c: Cond): string {
    match c
    case ProjectLike(_) => ProjectText()
    case FlowLike(_) => FlowText()
    case UserLike(_) => UserText()
    case StatusIs(_) => StatusText()
    case StartAfter(_) => StartText()
    case EndBefore(_) => EndText()
  }

  /** What joins a condition other than the project filter to the ones
      before it: " WHERE " for the first condition, " AND " after. */
  function Joiner(index: nat): string {
    if index == 0 then " WHERE " else " AND "
  }

  /** A LIKE filter matches the value anywhere in the column. */
  function Contains(v: string): string {
    "%" + v + "%"
  }

  function CondParam(c: Cond): Param {
    match c
    case ProjectLike(v) => PStr(Contains(v))
    case FlowLike(v) => PStr(Contains(v))
    case UserLike(v) => PStr(Contains(v))
    case StatusIs(s) => PInt(s)
    case StartAfter(t) => PInt(t)
    case EndBefore(t) => PInt(t)
  }

  /** The base query followed by the conditions, each after its joiner. */
  function RenderQuery(cs: seq<Cond>): string
    decreases |cs|
  {
    if |cs| == 0 then BaseQuery()
    else
      var c := cs[|cs| - 1];
      if c.ProjectLike? then RenderQuery(cs[..|cs| - 1]) + CondText(c) + Hole()
      else RenderQuery(cs[..|cs| - 1]) + Joiner(|cs| - 1) + CondText(c) + Hole()
  }

  function CondParams(cs: seq<Cond>): (ps: seq<Param>)
    ensures |ps| == |cs|
    decreases |cs|
  {
    if |cs| == 0 then [] else CondParams(cs[..|cs| - 1]) + [CondParam(cs[|cs| - 1])]
  }

  /** Paging is applied only with a non-negative offset and a positive count. */
  predicate Paged(skip: int, num: int) {
    skip > -1 && num > 0
  }

  function HistoryQuery(project: Option<string>, flow: Option<string>, user: Option<string>,
                        status: int, startTime: int, endTime: int, skip: int, num: int): string
  {
    var q := RenderQuery(Conds(project, flow, user, status, startTime, endTime));
    if Paged(skip, num) then q + PagingClause() else q
  }

  function HistoryParams(project: Option<string>, flow: Option<string>, user: Option<string>,
                         status: int, startTime: int, endTime: int, skip: int, num: int): seq<Param>
  {
    var ps := CondParams(Conds(project, flow, user, status, startTime, endTime));
    if Paged(skip, num) then ps + [PInt(skip), PInt(num)] else ps
  }

  /** Adding one condition to a partly built query. */
  lemma Extend(cs: seq<Cond>, c: Cond)
    ensures c.ProjectLike? ==> RenderQuery(cs + [c]) == RenderQuery(cs) + CondText(c) + Hole()
    ensures !c.ProjectLike? ==> RenderQuery(cs + [c]) == RenderQuery(cs) + Joiner(|cs|) + CondText(c) + Hole()
    ensures CondParams(cs + [c]) == CondParams(cs) + [CondParam(c)]
  {
    var longer := cs + [c];
    assert |longer| - 1 == |cs| && longer[..|cs|] == cs && longer[|cs|] == c;
  }

  /** What the builder keeps true between its filter blocks: the text and
      parameters render the conditions added so far, and `first` says that
      none was added yet. */
  predicate Invariant(query: string, params: seq<Param>, first: bool, cs: seq<Cond>) {
    query == RenderQuery(cs) && params == CondParams(cs) && (first <==> |cs| == 0)
  }

  /** One filter block of the builder, applied when the filter is given:
      the project filter brings its own WHERE; any other filter is joined by
      " WHERE " when it is the first and by " AND " otherwise. */
  method FilterBlock(query: string, params: seq<Param>, first: bool, ghost cs: seq<Cond>,
                     given: bool, c: Cond)
    returns (query': string, params': seq<Param>, first': bool, ghost cs': seq<Cond>)
    requires Invariant(query, params, first, cs)
    ensures cs' == AddIf(cs, given, c)
    ensures Invariant(query', params', first', cs')
  {
    query', params', first', cs' := query, params, first, cs;
    if given {
      Extend(cs, c);
      if !c.ProjectLike? {
        if first {
          query' := query' + " WHERE ";
        } else {
          query' := query' + " AND ";
        }
      }
      query' := query' + CondText(c) + Hole();
      params' := params' + [CondParam(c)];
      first' := false;
      cs' := cs + [c];
    }
  }

  /** The text filter blocks of the builder, in their fixed order. */
  method TextFilters(project: Option<string>, flow: Option<string>, user: Option<string>)
    returns (query: string, params: seq<Param>, first: bool, ghost cs: seq<Cond>)
    ensures cs == TextConds(project, flow, user)
    ensures Invariant(query, params, first, cs)
  {
    ghost var c0, c1;
    query, params, first, c0 := FilterBlock(BaseQuery(), [], true, [], Given(project), ProjectLike(project.GetOr("")));
    query, params, first, c1 := FilterBlock(query, params, first, c0, Given(flow), FlowLike(flow.GetOr("")));
    query, params, first, cs := FilterBlock(query, params, first, c1, Given(user), UserLike(user.GetOr("")));
  }

  /** The numeric filter blocks of the builder, in their fixed order. */
  method NumericFilters(query: string, params: seq<Param>, first: bool, ghost cs: seq<Cond>,
                        status: int, startTime: int, endTime: int)
    returns (query': string, params': seq<Param>, first': bool, ghost cs': seq<Cond>)
    requires Invariant(query, params, first, cs)
    ensures cs' == NumericConds(cs, status, startTime, endTime)
    ensures Invariant(query', params', first', cs')
  {
    ghost var c3, c4;
    query', params', first', c3 := FilterBlock(query, params, first, cs, status != 0, StatusIs(status));
    query', params', first', c4 := FilterBlock(query', params', first', c3, startTime > 0, StartAfter(startTime));
    query', params', first', cs' := FilterBlock(query', params', first', c4, endTime > 0, EndBefore(endTime));
  }

  /** `fetchFlowHistory`'s query builder: the filters in their fixed order,
      each only when given, then the paging clause. */
  method BuildFlowHistoryQuery(project: Option<string>, flow: Option<string>, user: Option<string>,
                               status: int, startTime: int, endTime: int, skip: int, num: int)
    returns (query: string, params: seq<Param>)
    ensures query == HistoryQuery(project, flow, user, status, startTime, endTime, skip, num)
    ensures params == HistoryParams(project, flow, user, status, startTime, endTime, skip, num)
  {
    var first;
    ghost var text, cs;
    query, params, first, text := TextFilters(project, flow, user);
    query, params, first, cs := NumericFilters(query, params, first, text, status, startTime, endTime);
    query, params := AppendPaging(query, params, skip, num);
  }

  /** The paging block of the builder: an ORDER BY with LIMIT, bound to the
      offset and the count, only when paging is asked for. */
  method AppendPaging(query: string, params: seq<Param>, skip: int, num: int)
    returns (query': string, params': seq<Param>)
    ensures query' == if Paged(skip, num) then query + PagingClause() else query
    ensures params' == if Paged(skip, num) then params + [PInt(skip), PInt(num)] else params
  {
    query', params' := query, params;
    if skip > -1 && num > 0 {
      query' := query' + PagingClause();
      params' := params' + [PInt(skip), PInt(num)];
    }
  }

  // ---------------------------------------------------------------------
  // Properties of the built query

  /** The number of `?` placeholders in a SQL text. */
  function CountHoles(s: string): nat
    decreases |s|
  {
    if |s| == 0 then 0 else (if s[0] == '?' then 1 else 0) + CountHoles(s[1..])
  }

  lemma {:induction false} CountHolesAppend(a: string, b: string)
    ensures CountHoles(a + b) == CountHoles(a) + CountHoles(b)
    decreases |a|
  {
    if |a| == 0 {
      assert a + b == b;
    } else {
      assert (a + b)[1..] == a[1..] + b;
      CountHolesAppend(a[1..], b);
    }
  }

  lemma {:induction false} CountHolesNone(s: string)
    requires '?' !in s
    ensures CountHoles(s) == 0
    decreases |s|
  {
    if |s| > 0 {
      assert s[0] in s;
      assert forall k :: 0 <= k < |s[1..]| ==> s[1..][k] == s[k + 1];
      CountHolesNone(s[1..]);
    }
  }

  lemma CountHolesHole()
    ensures CountHoles(Hole()) == 1
  {
    assert Hole()[1..] == [];
  }

  // None of the fixed SQL text outside the placeholders contains `?`.
  lemma NoHoleInBase() ensures '?' !in BaseQuery() {}
  lemma NoHoleInProject() ensures '?' !in ProjectText() {}
  lemma NoHoleInFlow() ensures '?' !in FlowText() {}
  lemma NoHoleInUser() ensures '?' !in UserText() {}
  lemma NoHoleInStatus() ensures '?' !in StatusText() {}
  lemma NoHoleInStart() ensures '?' !in StartText() {}
  lemma NoHoleInEnd() ensures '?' !in EndText() {}
  lemma NoHoleInPaging() ensures '?' !in PagingText() && '?' !in PagingSep() {}
  lemma NoHoleInJoiner(index: nat) ensures '?' !in Joiner(index) {}

  lemma CondTextHasNoHole(c: Cond)
    ensures CountHoles(CondText(c)) == 0
  {
    match c
    case ProjectLike(_) => NoHoleInProject(); CountHolesNone(ProjectText());
    case FlowLike(_) => NoHoleInFlow(); CountHolesNone(FlowText());
    case UserLike(_) => NoHoleInUser(); CountHolesNone(UserText());
    case StatusIs(_) => NoHoleInStatus(); CountHolesNone(StatusText());
    case StartAfter(_) => NoHoleInStart(); CountHolesNone(StartText());
    case EndBefore(_) => NoHoleInEnd(); CountHolesNone(EndText());
  }

  /** Every condition contributes exactly one placeholder. */
  lemma {:induction false} RenderHoles(cs: seq<Cond>)
    ensures CountHoles(RenderQuery(cs)) == |cs|
    decreases |cs|
  {
    if |cs| == 0 {
      NoHoleInBase();
      CountHolesNone(BaseQuery());
    } else {
      var c := cs[|cs| - 1];
      var init := cs[..|cs| - 1];
      RenderHoles(init);
      CondTextHasNoHole(c);
      CountHolesHole();
      var r := RenderQuery(init);
      if c.ProjectLike? {
        CountHolesAppend(r, CondText(c));
        CountHolesAppend(r + CondText(c), Hole());
      } else {
        var j := Joiner(|cs| - 1);
        NoHoleInJoiner(|cs| - 1);
        CountHolesNone(j);
        CountHolesAppend(r, j);
        CountHolesAppend(r + j, CondText(c));
        CountHolesAppend(r + j + CondText(c), Hole());
      }
    }
  }

  lemma PagingHoles()
    ensures CountHoles(PagingClause()) == 2
  {
    NoHoleInPaging();
    CountHolesNone(PagingText());
    CountHolesNone(PagingSep());
    CountHolesHole();
    CountHolesAppend(PagingText(), Hole());
    CountHolesAppend(PagingText() + Hole(), PagingSep());
    CountHolesAppend(PagingText() + Hole() + PagingSep(), Hole());
  }

  /** The query and its parameters agree: there are exactly as many `?`
      placeholders in the text as parameters in the list. */
  lemma PlaceholdersMatchParams(project: Option<string>, flow: Option<string>, user: Option<string>,
                                status: int, startTime: int, endTime: int, skip: int, num: int)
    ensures CountHoles(HistoryQuery(project, flow, user, status, startTime, endTime, skip, num))
         == |HistoryParams(project, flow, user, status, startTime, endTime, skip, num)|
  {
    var cs := Conds(project, flow, user, status, startTime, endTime);
    RenderHoles(cs);
    if Paged(skip, num) {
      PagingHoles();
      CountHolesAppend(RenderQuery(cs), PagingClause());
    }
  }

  /** The `k`-th parameter binds the `k`-th condition's placeholder. */
  lemma {:induction false} ParamsInConditionOrder(cs: seq<Cond>, k: int)
    requires 0 <= k < |cs|
    ensures CondParams(cs)[k] == CondParam(cs[k])
    decreases |cs|
  {
    if k < |cs| - 1 {
      ParamsInConditionOrder(cs[..|cs| - 1], k);
    }
  }

  predicate NoProjectAfterFirst(cs: seq<Cond>) {
    forall k :: 0 < k < |cs| ==> !cs[k].ProjectLike?
  }

  lemma AddIfNoProject(cs: seq<Cond>, b: bool, c: Cond)
    requires NoProjectAfterFirst(cs) && !c.ProjectLike?
    ensures NoProjectAfterFirst(AddIf(cs, b, c))
    ensures |cs| > 0 ==> |AddIf(cs, b, c)| > 0 && AddIf(cs, b, c)[0] == cs[0]
    ensures |cs| == 0 ==> AddIf(cs, b, c) == if b then [c] else []
  {
  }

  /** The join on `projects` is only ever added first, directly after the
      base query, where the SQL grammar allows it, and it is there exactly
      when a project filter is given. */
  lemma ProjectFilterComesFirst(project: Option<string>, flow: Option<string>, user: Option<string>,
                                status: int, startTime: int, endTime: int)
    ensures var cs := Conds(project, flow, user, status, startTime, endTime);
      && NoProjectAfterFirst(cs)
      && ((|cs| > 0 && cs[0].ProjectLike?) <==> Given(project))
  {
    var c0 := AddIf([], Given(project), ProjectLike(project.GetOr("")));
    var c1 := AddIf(c0, Given(flow), FlowLike(flow.GetOr("")));
    var c2 := AddIf(c1, Given(user), UserLike(user.GetOr("")));
    var c3 := AddIf(c2, status != 0, StatusIs(status));
    var c4 := AddIf(c3, startTime > 0, StartAfter(startTime));
    AddIfNoProject(c0, Given(flow), FlowLike(flow.GetOr("")));
    AddIfNoProject(c1, Given(user), UserLike(user.GetOr("")));
    AddIfNoProject(c2, status != 0, StatusIs(status));
    AddIfNoProject(c3, startTime > 0, StartAfter(startTime));
    AddIfNoProject(c4, endTime > 0, EndBefore(endTime));
  }

  /** Paging is present exactly when asked for, and its two values are the
      last parameters, offset first. */
  lemma PagingParamsLast(project: Option<string>, flow: Option<string>, user: Option<string>,
                         status: int, startTime: int, endTime: int, skip: int, num: int)
    ensures var ps := HistoryParams(project, flow, user, status, startTime, endTime, skip, num);
      var n := |Conds(project, flow, user, status, startTime, endTime)|;
      && |ps| == n + (if Paged(skip, num) then 2 else 0)
      && (Paged(skip, num) ==> ps[n..] == [PInt(skip), PInt(num)])
  {
  }

  /** The numeric filters only ever append to the text filters. */
  lemma NumericKeepsPrefix(cs: seq<Cond>, status: int, startTime: int, endTime: int)
    ensures |cs| <= |NumericConds(cs, status, startTime, endTime)|
    ensures NumericConds(cs, status, startTime, endTime)[..|cs|] == cs
  {
    var c3 := AddIf(cs, status != 0, StatusIs(status));
    var c4 := AddIf(c3, startTime > 0, StartAfter(startTime));
    assert c3[..|cs|] == cs;
    assert c4[..|c3|] == c3;
    assert AddIf(c4, endTime > 0, EndBefore(endTime))[..|c4|] == c4;
  }

  /** Where each given text filter sits among the text filters. */
  lemma TextCondsPositions(project: Option<string>, flow: Option<string>, user: Option<string>)
    ensures var t := TextConds(project, flow, user);
      var before := (if Given(project) then 1 else 0) + (if Given(flow) then 1 else 0);
      && |t| == before + (if Given(user) then 1 else 0)
      && (Given(project) ==> t[0] == ProjectLike(project.value))
      && (Given(flow) ==> t[before - 1] == FlowLike(flow.value))
      && (Given(user) ==> t[before] == UserLike(user.value))
  {
  }

  /** Each given text filter is bound as its value wrapped in `%`, so the
      column only has to contain the value, at the position of its
      placeholder: after the parameters of the filters given before it. */
  lemma LikeParamsWrapValue(project: Option<string>, flow: Option<string>, user: Option<string>,
                            status: int, startTime: int, endTime: int, skip: int, num: int)
    ensures var ps := HistoryParams(project, flow, user, status, startTime, endTime, skip, num);
      var before := (if Given(project) then 1 else 0) + (if Given(flow) then 1 else 0);
      && |ps| >= before + (if Given(user) then 1 else 0)
      && (Given(project) ==> ps[0] == PStr("%" + project.value + "%"))
      && (Given(flow) ==> ps[before - 1] == PStr("%" + flow.value + "%"))
      && (Given(user) ==> ps[before] == PStr("%" + user.value + "%"))
  {
    var t := TextConds(project, flow, user);
    var cs := Conds(project, flow, user, status, startTime, endTime);
    var ps := HistoryParams(project, flow, user, status, startTime, endTime, skip, num);
    NumericKeepsPrefix(t, status, startTime, endTime);
    TextCondsPositions(project, flow, user);
    assert ps[..|cs|] == CondParams(cs);
    forall k | 0 <= k < |t|
      ensures ps[k] == CondParam(t[k])
    {
      ParamsInConditionOrder(cs, k);
      assert cs[..|t|][k] == t[k];
    }
  }
}
