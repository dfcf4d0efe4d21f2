/** The query of `GET /admin/tenants` (src/admin/tenants/dto/get-tenants-query.dto.ts)
    as the global validation pipe admits it: unknown parameters are refused,
    `plan` must name a plan, `q` must be a string, and `page`/`pageSize` must
    be numbers of at least 1, defaulting to 1 and 10.
 */
module TenantsQuery {
  import opened Wrappers
  import opened JsValues
  import opened Store

  const DefaultPage: int := 1
  const DefaultPageSize: int := 10

  /** The properties the query class declares; any other is refused. */
  const QueryFields: set<string> := {"plan", "q", "page", "pageSize"}

  /** `forbidNonWhitelisted`: the pipe names the offending property; the
      model keeps only the rest of the message. */
  const UnknownProperty: string := "property should not exist"

  /** A validated query. `page` and `pageSize` are at least 1. */
  datatype TenantsQuery = TenantsQuery(plan: Option<Plan>, q: Option<string>, page: int, pageSize: int)

  /** `@IsEnum(plan)`: the enum's member names. */
  function ParsePlan(s: string): (r: Option<Plan>)
    ensures r.Some? <==> s in {"FREE", "PRO", "ULTRA"}
    ensures r == Some(FREE) <==> s == "FREE"
    ensures r == Some(PRO) <==> s == "PRO"
    ensures r == Some(ULTRA) <==> s == "ULTRA"
  {
    if s == "FREE" then Some(FREE)
    else if s == "PRO" then Some(PRO)
    else if s == "ULTRA" then Some(ULTRA)
    else None
  }

  /** `@IsOptional() @IsNumber() @Min(1)` with a class default;
      `@IsOptional()` skips the other validators for a nullish value. */
  function PositiveOr(v: Value, name: string, default: int): (r: Result<int>)
    requires default >= 1
    ensures r.Ok? ==> r.value >= 1
    ensures Nullish(v) ==> r == Ok(default)
    ensures v.Num? ==> (r.Ok? <==> v.n >= 1) && (r.Ok? ==> r.value == v.n)
    ensures !Nullish(v) && !v.Num? ==> r.Err?
    ensures r.Err? ==> r.error.BadRequest?
  {
    if Nullish(v) then Ok(default)
    else if !v.Num? then Err(BadRequest(name + " must be a number conforming to the specified constraints"))
    else if v.n < 1 then Err(BadRequest(name + " must not be less than 1"))
    else Ok(v.n)
  }

  /** The declared constraints: only declared parameters, each absent or
      of the declared type and range. */
  predicate Admissible(raw: map<string, Value>) {
    && raw.Keys <= QueryFields
    && (Nullish(Member(raw, "plan")) || (Member(raw, "plan").Str? && Member(raw, "plan").s in {"FREE", "PRO", "ULTRA"}))
    && (Nullish(Member(raw, "q")) || Member(raw, "q").Str?)
    && (Nullish(Member(raw, "page")) || (Member(raw, "page").Num? && Member(raw, "page").n >= 1))
    && (Nullish(Member(raw, "pageSize")) || (Member(raw, "pageSize").Num? && Member(raw, "pageSize").n >= 1))
  }

  /** The validation pipe on the query, after `@Type(() => Number)` has
      turned `page` and `pageSize` into numbers. */
  function ValidateTenantsQuery(raw: map<string, Value>): (r: Result<TenantsQuery>)
    ensures r.Ok? <==> Admissible(raw)
    ensures r.Ok? ==> r.value.page >= 1 && r.value.pageSize >= 1
    ensures r.Ok? ==> (r.value.plan.Some? <==> !Nullish(Member(raw, "plan")))
    ensures r.Ok? && r.value.plan.Some? ==> Member(raw, "plan") == Str(PlanName(r.value.plan.value))
    ensures r.Ok? ==> (r.value.q.Some? <==> !Nullish(Member(raw, "q")))
    ensures r.Ok? && r.value.q.Some? ==> Member(raw, "q") == Str(r.value.q.value)
    ensures r.Ok? && Nullish(Member(raw, "page")) ==> r.value.page == DefaultPage
    ensures r.Ok? && Nullish(Member(raw, "pageSize")) ==> r.value.pageSize == DefaultPageSize
    ensures r.Ok? && !Nullish(Member(raw, "page")) ==> Member(raw, "page") == Num(r.value.page)
    ensures r.Ok? && !Nullish(Member(raw, "pageSize")) ==> Member(raw, "pageSize") == Num(r.value.pageSize)
    ensures r.Err? ==> r.error.BadRequest?
  {
    var unknown := raw.Keys - QueryFields;
    if unknown != {} then
      Err(BadRequest(UnknownProperty))
    else
      var plan := Member(raw, "plan");
      var q := Member(raw, "q");
      if !Nullish(plan) && !(plan.Str? && ParsePlan(plan.s).Some?) then
        Err(BadRequest("plan must be one of the following values: FREE, PRO, ULTRA"))
      else if !Nullish(q) && !q.Str? then
        Err(BadRequest("q must be a string"))
      else
        var page :- PositiveOr(Member(raw, "page"), "page", DefaultPage);
        var pageSize :- PositiveOr(Member(raw, "pageSize"), "pageSize", DefaultPageSize);
        Ok(TenantsQuery(
          if Nullish(plan) then None else ParsePlan(plan.s),
          if Nullish(q) then None else Some(q.s),
          page, pageSize))
  }

  /** The enum member name of a plan. */
  function PlanName(p: Plan): string {
    match p
    case FREE => "FREE"
    case PRO => "PRO"
    case ULTRA => "ULTRA"
  }
}
