/**
 * The generic CRUD controller: one instance serves one model, compiles the
 * `search` request parameter into a WHERE fragment, and turns each HTTP verb
 * into calls on the database, every one of them scoped by the access policy
 * of the request.
 */
module Controller {
  import opened Wrappers
  import opened Text
  import opened Machine
  import opened Tokenizer
  import opened ClauseMatcher
  import opened SearchType
  import opened Gorm
  import opened Search
  import opened RouteNames

  /** The paging request and response of `Get` (`gormPaging`). */
  datatype Paging = Paging(page: int64, size: int64, order: string, total: int64, search: string, data: seq<Record>)

  /** What `Get` binds the request into: page 0 of 20 rows, newest id first. */
  const DefaultPaging := Paging(0, 20, "id desc", 0, "", [])

  /** The parts of a request the handlers use. */
  datatype Context = Context(
    // policy.CreateExpressions(ctx, table, columns, -1): the rows this request may see
    policyScope: (string, seq<string>) -> Cond,
    // ctx.Bind applied to a paging value filled with the defaults
    bindPaging: Paging -> Result<Paging, Error>,
    // ctx.Bind applied to a zero model value
    bindRecord: Record -> Result<Record, Error>,
    // ctx.GetParam("id")
    id: string)

  /** `stringSliceIn`: whether `str` is one of `strs`. */
  method StringSliceIn(strs: seq<string>, str: string) returns (found: bool)
    ensures found <==> str in strs
  {
    for i := 0 to |strs|
      invariant str !in strs[..i]
    {
      if strs[i] == str {
        return true;
      }
    }
    assert strs[..|strs|] == strs;
    return false;
  }

  /**
   * `getGormModelColumns`: the column names and their kinds, in the order the
   * database reports them; the error of the column query is passed on.
   */
  method GetGormModelColumns(db: Storage, model: Model) returns (cols: seq<string>, typs: seq<string>, err: Option<Error>)
    ensures db.columnTypes(model).Failure? ==>
      cols == [] && typs == [] && err == Some(db.columnTypes(model).error)
    ensures db.columnTypes(model).Success? ==>
      var found := db.columnTypes(model).value;
      && err.None? && |cols| == |found| && |typs| == |found|
      && (forall i :: 0 <= i < |found| ==> cols[i] == found[i].name)
      && (forall i :: 0 <= i < |found| ==> typs[i] == ColumnKind(found[i].databaseType))
  {
    match db.columnTypes(model)
    case Failure(e) =>
      return [], [], Some(e);
    case Success(coltypes) =>
      var names := new string[|coltypes|](_ => "");
      var kinds := new string[|coltypes|](_ => "");
      for i := 0 to |coltypes|
        invariant forall j :: 0 <= j < i ==> names[j] == coltypes[j].name
        invariant forall j :: 0 <= j < i ==> kinds[j] == ColumnKind(coltypes[j].databaseType)
        invariant forall j :: i <= j < |coltypes| ==> kinds[j] == ""
      {
        names[i] := coltypes[i].name;
        var dt := coltypes[i].databaseType;
        if dt == "int8" {
          kinds[i] := "int";
        } else if dt == "text" {
          kinds[i] := "string";
        } else if dt == "timestamptz" {
          kinds[i] := "time";
        }
      }
      return names[..], kinds[..], None;
  }

  /**
   * `NewGormController`: no controller when the columns cannot be read (and
   * then nothing else reaches the database); otherwise the table is migrated
   * and the controller keeps the columns, their kinds and the float test.
   */
  method NewGormController(db: Storage, model: Model, isFloat: string -> bool) returns (ctl: GormController?)
    modifies db
    ensures db.columnTypes(model).Failure? ==> ctl == null && db.log == old(db.log)
    ensures db.columnTypes(model).Success? ==>
      var found := db.columnTypes(model).value;
      && ctl != null && ctl.Valid()
      && db.log == old(db.log) + [Migrate(model)]
      && ctl.ModelTypeName == model.typeName && ctl.TableName == model.tableName
      && ctl.isFloat == isFloat
      && |ctl.ModelColumnNames| == |found|
      && (forall i :: 0 <= i < |found| ==> ctl.ModelColumnNames[i] == found[i].name)
      && (forall i :: 0 <= i < |found| ==> ctl.ModelColumnTypes[i] == ColumnKind(found[i].databaseType))
  {
    var cols, typs, err := GetGormModelColumns(db, model);
    if err.Some? {
      return null;
    }
    db.AutoMigrate(model);
    ctl := new GormController(model.typeName, model.tableName, cols, typs, isFloat);
  }

  class GormController {
    const ModelTypeName: string
    const TableName: string
    const ModelColumnNames: seq<string>
    const ModelColumnTypes: seq<string>
    /** Which texts strconv.ParseFloat accepts. */
    const isFloat: string -> bool

    /** Every column has a kind. */
    predicate Valid() {
      |ModelColumnNames| == |ModelColumnTypes|
    }

    constructor(modelTypeName: string, tableName: string, names: seq<string>, typs: seq<string>, isFloat: string -> bool)
      requires |names| == |typs|
      ensures Valid()
      ensures ModelTypeName == modelTypeName && TableName == tableName
      ensures ModelColumnNames == names && ModelColumnTypes == typs && this.isFloat == isFloat
    {
      ModelTypeName := modelTypeName;
      TableName := tableName;
      ModelColumnNames := names;
      ModelColumnTypes := typs;
      this.isFloat := isFloat;
    }

    /** `WithDB`: the model's table, restricted to what the access policy lets this request see. */
    function WithDB(ctx: Context): (q: Query)
      ensures q.wheres == [ctx.policyScope(TableName, ModelColumnNames)]
      ensures q.limit.None? && q.offset.None? && q.order.None?
    {
      Query([ctx.policyScope(TableName, ModelColumnNames)], None, None, None)
    }

    /** The query `Get` counts over: the policy scope, then the search predicate if there is a search. */
    function SearchQuery(ctx: Context, search: string): (q: Query)
      requires Valid()
      ensures |q.wheres| >= 1 && q.wheres[0] == ctx.policyScope(TableName, ModelColumnNames)
      ensures search == "" ==> q == WithDB(ctx)
      ensures search != "" ==>
        q.wheres == [ctx.policyScope(TableName, ModelColumnNames), SearchPredicate(ModelColumnNames, ModelColumnTypes, search, isFloat)]
      ensures q.limit.None? && q.offset.None? && q.order.None?
    {
      if search == "" then WithDB(ctx) else Where(WithDB(ctx), SearchPredicate(ModelColumnNames, ModelColumnTypes, search, isFloat))
    }

    /** The query of the `...ById` handlers: the policy scope, then `id=?` with the route's id. */
    function ByIdQuery(ctx: Context): (q: Query)
      ensures q.wheres == [ctx.policyScope(TableName, ModelColumnNames), Cond("id=?", [Str(ctx.id)])]
      ensures q.limit.None? && q.offset.None? && q.order.None?
    {
      Where(WithDB(ctx), Cond("id=?", [Str(ctx.id)]))
    }

    /** `ControllerGroup(name)`. */
    method ControllerGroup(name: string) returns (group: string)
      ensures group == GroupName(ModelTypeName, name)
    {
      if name == "GormController" {
        var typeName := ModelTypeName;
        var buf: string := [];
        for i := 0 to |typeName|
          invariant buf == SlashLower(typeName[..i])
        {
          var c := typeName[i];
          if 64 < c as int && c as int < 91 {
            buf := buf + ['/', (c as int + 0x20) as char];
          } else {
            buf := buf + [c];
          }
          SlashLowerAppend(typeName[..i], c);
          assert typeName[..i + 1] == typeName[..i] + [c];
        }
        assert typeName[..|typeName|] == typeName;
        return buf;
      }
      var base := name;
      if HasSuffix(base, "Controller") || HasSuffix(base, "controller") {
        base := base[..|base| - 10];
      }
      return LowerAscii(base);
    }

    /**
     * `parseSearchExpression(key)`: tokens are read left to right; each
     * clause on a known column appends `name op ? AND ` and its parameter, an
     * unmatched token turns a trailing AND into OR; the last joiner is then
     * cut, and when no clause was accepted the fallback search is used.
     */
    method ParseSearchExpression(key: string) returns (sql: string, data: seq<Param>)
      requires Valid()
      ensures Cond(sql, data) == SearchPredicate(ModelColumnNames, ModelColumnTypes, key, isFloat)
    {
      sql, data := "", [];
      var tokens := Tokens(key);
      ghost var ps: seq<Piece> := [];
      for i := 0 to |tokens|
        invariant ps == Compile(ModelColumnNames, tokens[..i])
        invariant sql == Render(ps) && data == Params(ps)
      {
        CompileNext(ModelColumnNames, tokens, i);
        var token := tokens[i];
        ghost var next := Step(ModelColumnNames, ps, token);
        var exp := MatchClause(token);
        if exp.None? {
          UnmatchedStep(ModelColumnNames, ps, token, sql);
          if HasSuffix(sql, "AND ") {
            sql := sql[..|sql| - 4] + "OR ";
          }
          ps := next;
          continue;
        }
        var known := StringSliceIn(ModelColumnNames, exp.value.name);
        if !known {
          ps := next;
          continue;
        }
        AcceptedStep(ModelColumnNames, ps, token);
        MatchedNameIsWord(token);
        var name, op, value := exp.value.name, exp.value.op, exp.value.value;
        if op == "~" {
          op := "LIKE";
          value := "%" + value + "%";
        } else if op == "!~" {
          op := "NOT LIKE";
          value := "%" + value + "%";
        } else if op == ":" && ',' in value {
          op := "IN";
        }
        sql := sql + (name + " " + op + " ? AND ");
        if op == "IN" {
          data := data + [List(Split(value, ','))];
        } else {
          data := data + [Str(value)];
        }
        ps := next;
      }
      assert tokens[..|tokens|] == tokens;
      RenderTrim(ps);
      if HasSuffix(sql, " AND ") || HasSuffix(sql, " OR ") {
        sql := sql[..|sql| - 4];
      }
      if |data| != 0 {
        return;
      }
      sql, data := ParseSearchLike(key);
    }

    /**
     * `parseSearchLike(key)`: every column whose kind is the type the whole
     * text parses as contributes `col LIKE ?` (text) or `col=?` (int, bool),
     * each with the parsed value; the clauses are joined by OR.
     */
    method ParseSearchLike(key: string) returns (sql: string, vals: seq<Param>)
      requires Valid()
      ensures Cond(sql, vals) == LikeScan(ModelColumnNames, ModelColumnTypes, key, isFloat)
    {
      var v := ParseSearchType(key, isFloat);
      var typ, val := TypeName(v), ValueParam(v);
      var sqls: seq<string> := [];
      vals := [];
      for i := 0 to |ModelColumnTypes|
        invariant sqls == LikeClauses(ModelColumnNames[..i], ModelColumnTypes[..i], typ)
        invariant vals == seq(|sqls|, _ => val)
      {
        assert ModelColumnNames[..i + 1][..i] == ModelColumnNames[..i];
        assert ModelColumnTypes[..i + 1][..i] == ModelColumnTypes[..i];
        var coltyp := ModelColumnTypes[i];
        if typ != coltyp {
          continue;
        }
        if coltyp == "string" {
          sqls := sqls + [ModelColumnNames[i] + " LIKE ?"];
          vals := vals + [val];
        } else if coltyp == "int" || coltyp == "bool" {
          sqls := sqls + [ModelColumnNames[i] + "=?"];
          vals := vals + [val];
        }
      }
      assert ModelColumnNames[..|ModelColumnTypes|] == ModelColumnNames;
      assert ModelColumnTypes[..|ModelColumnTypes|] == ModelColumnTypes;
      sql := Join(sqls, " OR ");
    }

    /**
     * `Get`: a bind error is returned before the database is touched;
     * otherwise the rows are counted first, and fetched (one page, in the
     * requested order) only when the count succeeded and is not zero.
     */
    method Get(ctx: Context, db: Storage) returns (paging: Option<Paging>, err: Option<Error>)
      requires Valid()
      modifies db
      ensures ctx.bindPaging(DefaultPaging).Failure? ==>
        paging.None? && err == Some(ctx.bindPaging(DefaultPaging).error) && db.log == old(db.log)
      ensures ctx.bindPaging(DefaultPaging).Success? ==>
        var bound := ctx.bindPaging(DefaultPaging).value.(data := []);
        var q := SearchQuery(ctx, bound.search);
        var fetch := q.(limit := Some(bound.size), offset := Some(Mul(bound.size, bound.page)), order := Some(bound.order));
        match db.counter(q)
        case Failure(e) =>
          db.log == old(db.log) + [Call.Count(q)] && paging == Some(bound) && err == Some(e)
        case Success(total) =>
          if total == 0 then
            db.log == old(db.log) + [Call.Count(q)] && paging == Some(bound.(total := 0)) && err.None?
          else
            && db.log == old(db.log) + [Call.Count(q), Call.Find(fetch)]
            && match db.finder(fetch)
               case Failure(e) => paging == Some(bound.(total := total)) && err == Some(e)
               case Success(rows) => paging == Some(bound.(total := total, data := rows)) && err.None?
    {
      var bind := ctx.bindPaging(DefaultPaging);
      if bind.Failure? {
        return None, Some(bind.error);
      }
      var p := bind.value.(data := []);
      var q := WithDB(ctx);
      if p.search != "" {
        var cond, conddata := ParseSearchExpression(p.search);
        q := Where(q, Cond(cond, conddata));
      }
      var counted := db.Count(q);
      if counted.Failure? {
        return Some(p), Some(counted.error);
      }
      p := p.(total := counted.value);
      if p.total == 0 {
        return Some(p), None;
      }
      var fetch := q.(limit := Some(p.size), offset := Some(Mul(p.size, p.page)), order := Some(p.order));
      var rows := db.Find(fetch);
      match rows
      case Failure(e) =>
        return Some(p), Some(e);
      case Success(found) =>
        return Some(p.(data := found)), None;
    }

    /** `GetById`: the first row with the id, or the zero value when there is none (which is no error). */
    method GetById(ctx: Context, db: Storage) returns (data: Record, err: Option<Error>)
      modifies db
      ensures db.log == old(db.log) + [Call.Find(ByIdQuery(ctx))]
      ensures match db.finder(ByIdQuery(ctx))
        case Failure(e) => data == ZeroRecord && err == Some(e)
        case Success(rows) => err.None? && data == (if rows == [] then ZeroRecord else rows[0])
    {
      var rows := db.Find(ByIdQuery(ctx));
      match rows
      case Failure(e) =>
        return ZeroRecord, Some(e);
      case Success(found) =>
        data := if found == [] then ZeroRecord else found[0];
        return data, None;
    }

    /**
     * `Post`: a bind error is returned before the database is touched;
     * otherwise the bound value is saved, and the value returned is the one
     * Save leaves in the destination.
     */
    method Post(ctx: Context, db: Storage) returns (data: Option<Record>, err: Option<Error>)
      modifies db
      ensures ctx.bindRecord(ZeroRecord).Failure? ==>
        data.None? && err == Some(ctx.bindRecord(ZeroRecord).error) && db.log == old(db.log)
      ensures ctx.bindRecord(ZeroRecord).Success? ==>
        var call := Save(WithDB(ctx), ctx.bindRecord(ZeroRecord).value);
        data == Some(db.writeBack(call)) && db.log == old(db.log) + [call] && err == db.writer(call)
    {
      var bind := ctx.bindRecord(ZeroRecord);
      if bind.Failure? {
        return None, Some(bind.error);
      }
      var dest;
      err, dest := db.Write(Save(WithDB(ctx), bind.value));
      data := Some(dest);
    }

    /**
     * `PutById`: a bind error is returned before the database is touched;
     * otherwise the row with the id is updated from the bound value, and the
     * value returned is the one Updates leaves in the destination.
     */
    method PutById(ctx: Context, db: Storage) returns (data: Option<Record>, err: Option<Error>)
      modifies db
      ensures ctx.bindRecord(ZeroRecord).Failure? ==>
        data.None? && err == Some(ctx.bindRecord(ZeroRecord).error) && db.log == old(db.log)
      ensures ctx.bindRecord(ZeroRecord).Success? ==>
        var call := Updates(ByIdQuery(ctx), ctx.bindRecord(ZeroRecord).value);
        data == Some(db.writeBack(call)) && db.log == old(db.log) + [call] && err == db.writer(call)
    {
      var bind := ctx.bindRecord(ZeroRecord);
      if bind.Failure? {
        return None, Some(bind.error);
      }
      var dest;
      err, dest := db.Write(Updates(ByIdQuery(ctx), bind.value));
      data := Some(dest);
    }

    /** `DeleteById`: the row with the id, within the policy scope, is deleted. */
    method DeleteById(ctx: Context, db: Storage) returns (err: Option<Error>)
      modifies db
      ensures db.log == old(db.log) + [Delete(ByIdQuery(ctx))] && err == db.writer(Delete(ByIdQuery(ctx)))
    {
      var dest;
      err, dest := db.Write(Delete(ByIdQuery(ctx)));
    }
  }
}
