/**
 * The part of gorm the controller talks to, as values and one stateful object.
 *
 * A chain `db.Where(...).Limit(...).Offset(...).Order(...)` is a Query value;
 * the database behind `*gorm.DB` is a Storage object that records every
 * migrate, count, find and write that reaches it and answers from fixed
 * functions (what the database holds is not modelled). The migrator's column
 * query is one of those functions, an input read without being logged.
 */
module Gorm {
  import opened Wrappers
  import opened Machine

  /** A bound parameter of a WHERE fragment (the `interface{}` values the controller passes). */
  datatype Param =
    | Str(s: string)
    | List(items: seq<string>)
    | Int(i: int)
    | Bool(b: bool)
    | Flt(text: string)

  /** A parameterised WHERE fragment: `db.Where(sql, vals...)`. */
  datatype Cond = Cond(sql: string, vals: seq<Param>)

  /** A column reported by `db.Migrator().ColumnTypes(model)`. */
  datatype ColumnType = ColumnType(name: string, databaseType: string)

  /** The model struct the controller serves: its Go type name and its table. */
  datatype Model = Model(typeName: string, tableName: string)

  datatype Error = Error(message: string)

  /** A model value, field by field; the zero value has no field set. */
  datatype Record = Record(fields: map<string, Param>)

  const ZeroRecord := Record(map[])

  /** A query chain: its WHERE fragments in order and the paging clauses set on it. */
  datatype Query = Query(wheres: seq<Cond>, limit: Option<int64>, offset: Option<int64>, order: Option<string>)

  function Where(q: Query, c: Cond): Query {
    q.(wheres := q.wheres + [c])
  }

  /** What reached the database, in order. */
  datatype Call =
    | Migrate(model: Model)
    | Count(query: Query)
    | Find(query: Query)
    | Save(query: Query, record: Record)
    | Updates(query: Query, record: Record)
    | Delete(query: Query)

  class Storage {
    var log: seq<Call>
    const columnTypes: Model -> Result<seq<ColumnType>, Error>
    const counter: Query -> Result<int64, Error>
    const finder: Query -> Result<seq<Record>, Error>
    const writer: Call -> Option<Error>
    /** The destination a write leaves behind: the record with what the database fills in (primary key, timestamps). */
    const writeBack: Call -> Record

    constructor(columnTypes: Model -> Result<seq<ColumnType>, Error>,
                counter: Query -> Result<int64, Error>,
                finder: Query -> Result<seq<Record>, Error>,
                writer: Call -> Option<Error>,
                writeBack: Call -> Record)
      ensures log == []
      ensures this.columnTypes == columnTypes && this.counter == counter
      ensures this.finder == finder && this.writer == writer && this.writeBack == writeBack
    {
      log := [];
      this.columnTypes := columnTypes;
      this.counter := counter;
      this.finder := finder;
      this.writer := writer;
      this.writeBack := writeBack;
    }

    /** `db.AutoMigrate(model)`; its error is ignored by the controller. */
    method AutoMigrate(model: Model)
      modifies this
      ensures log == old(log) + [Migrate(model)]
    {
      log := log + [Migrate(model)];
    }

    /** `q.Count(&total)`. */
    method Count(q: Query) returns (r: Result<int64, Error>)
      modifies this
      ensures log == old(log) + [Call.Count(q)] && r == counter(q)
    {
      log := log + [Call.Count(q)];
      r := counter(q);
    }

    /** `q.Find(dest)`: the rows the query selects. */
    method Find(q: Query) returns (r: Result<seq<Record>, Error>)
      modifies this
      ensures log == old(log) + [Call.Find(q)] && r == finder(q)
    {
      log := log + [Call.Find(q)];
      r := finder(q);
    }

    /** A writing call (`Save`, `Updates`, `Delete`), the error it reports and the destination as it leaves it. */
    method Write(c: Call) returns (err: Option<Error>, dest: Record)
      requires c.Save? || c.Updates? || c.Delete?
      modifies this
      ensures log == old(log) + [c] && err == writer(c) && dest == writeBack(c)
    {
      log := log + [c];
      err := writer(c);
      dest := writeBack(c);
    }
  }
}
