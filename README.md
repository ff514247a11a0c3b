# Generic gorm controller of eudore/endpoint, in Dafny

This project models `GormController`, the generic CRUD controller of the
`gorm` package. One controller serves one model (one database table). The
model covers:

- **Schema discovery.** `getGormModelColumns` reads the table's columns and
  classifies each by its database type: `int8` is "int", `text` is
  "string", `timestamptz` is "time", and anything else is "".
  `NewGormController` builds a controller from these columns and migrates
  the table.
- **Search compilation.** This is the heart of the model.
  - `parseSearchExpression` splits the `search` request parameter into
    tokens with the regular expression `regs`. It matches each token
    against the clause pattern `regc`.
  - Each clause on a known column becomes `name op ? AND ` plus one
    parameter.
  - `~` and `!~` become `LIKE` and `NOT LIKE`, with the value wrapped in
    `%`. A `:` whose value holds a comma becomes `IN`, with the
    comma-separated list as the parameter.
  - A token that is no clause turns a trailing `AND` into `OR`.
  - When no clause was accepted, `parseSearchLike` compares the whole text
    with every column whose kind equals the type `parseSearchType` gives
    the text.
  - Both regular expressions are modelled under Go's leftmost-first
    semantics (modules `Tokenizer` and `ClauseMatcher`).
- **Handlers.** `Get` does paging and search. `GetById`, `Post`, `PutById`
  and `DeleteById` are the by-id operations. Every query they issue starts
  from `WithDB`, which scopes the table by the request's access policy.
- **Route naming.** `ControllerGroup`, `ControllerParam` and
  `ControllerRoute`.

The state-changing parts are imperative:

- `Gorm.Storage` is the database behind `*gorm.DB`. It records every
  migrate, count, find and write that reaches it, in order (`log`), and
  answers from fixed functions. The migrator's column query
  (`ColumnTypes`) is one of those functions: an input, not a logged call.
- The loops of `parseSearchExpression`, `parseSearchLike`, `stringSliceIn`,
  `getGormModelColumns` and `ControllerGroup` are methods with loop
  invariants. Each is proved equal to a specification function
  (`Search.SearchPredicate`, `Search.LikeScan`, `RouteNames.GroupName`).
  The properties are then proved about those functions.

Module layout:

| module | file | contents |
|---|---|---|
| Wrappers | wrappers.dfy | Option, Result |
| Text | text.dfy | ASCII classes, `strings.Split`/`Join`/`HasSuffix` |
| Machine | machine.dfy | Go's 64-bit integers and their wrap-around |
| SearchType | search_type.dfy | `strconv.ParseInt`/`ParseBool`, `parseSearchType` |
| Tokenizer | tokenizer.dfy | `regs.FindAllString` |
| ClauseMatcher | clause.dfy | `regc.FindStringSubmatch` |
| Gorm | gorm.dfy | query chains as values, the database as a `Storage` object |
| Search | search.dfy | the search compiler as functions, and its properties |
| RouteNames | routes.dfy | group path, action parameter, route overrides |
| Controller | controller.dfy | the controller class, its constructor and its handlers |

Behaviour of the code that a reader might not expect:

- The fallback search on a text column binds the search text as it is.
  No `%` wildcards are added, so `col LIKE ?` is an exact match unless the
  user typed wildcards.
- `GetById` with no matching row returns the zero value of the model and
  no error. There is no not-found error.
- `Get` neither validates nor clamps `page` and `size`. The offset is
  `size * page`, computed in Go's 64-bit arithmetic, so it wraps around
  for huge values (`Machine.MulWrapsAround`).
- The operators `<>`, `>=` and `<=` are listed in `regc` but are never
  selected. Go's alternation tries `>` and `<` first, so `age>=18` compiles
  to `age > ?` with the parameter `=18` (`ClauseMatcher.GreaterOrEqualIsShadowed`).
- A `:` whose value has no comma is kept as the operator `:` (`name : ?`).
- When the last accepted clause is followed by `AND`, the cut of four
  characters leaves a trailing space: `name=alice` gives `name = ? `.
  A trailing `OR` is cut entirely.

## Model

| member | source | states |
|---|---|---|
| Controller.StringSliceIn | gorm/controller.go:226-233 | the result is true exactly when the string is one of the slice's elements |
| Controller.GetGormModelColumns | gorm/controller.go:51-70 | a failed column query gives empty slices and its error; otherwise one name and one kind per reported column, in order, the kind being ColumnKind of its database type |
| Search.ColumnKind | gorm/controller.go:60-67 | `int8`, `text`, `timestamptz` and nothing else map to "int", "string", "time"; every other type maps to "" (each direction proved) |
| Controller.NewGormController | gorm/controller.go:26-43 | no controller and no logged call after the column query when the columns cannot be read; otherwise exactly one AutoMigrate call and a valid controller holding the model's type, table, columns, kinds and the given float test |
| Controller.GormController.constructor | gorm/controller.go:34-42 | the controller keeps the columns and kinds it is given, of equal length |
| Controller.GormController.WithDB | gorm/controller.go:38-41 | the base query is the table restricted by the request's policy expression, with no paging clause |
| Controller.GormController.SearchQuery | gorm/controller.go:130-134 | the policy scope comes first; a search adds exactly the compiled search predicate after it; an empty search adds nothing |
| Controller.GormController.ByIdQuery | gorm/controller.go:259 | the by-id query is the policy scope followed by `id=?` bound to the route's id |
| Controller.GormController.ControllerGroup | gorm/controller.go:73-90 | the loop builds exactly GroupName: for `GormController` the model's type name with every ASCII capital turned into `/` and its lower case; otherwise the name without a `Controller`/`controller` suffix, lower-cased |
| RouteNames.SlashLowerRoundTrip | gorm/controller.go:76-84 | the group path of a type name without `/` reads back to that name |
| RouteNames.SlashLowerHasNoCapital | gorm/controller.go:76-84 | a group path holds no ASCII capital |
| RouteNames.GroupName | gorm/controller.go:73-90 | no group name holds an ASCII capital; for a name other than `GormController` it is as long as the name without its `Controller` suffix |
| RouteNames.GroupNameExamples | gorm/controller.go:73-90 | `UserInfo` served by the generic controller gives `/user/info`; `UserController` gives `user` |
| RouteNames.TrimControllerSuffix | gorm/controller.go:86-88 | with either suffix, exactly 10 characters are dropped and the rest is a prefix of the name; otherwise the name is kept |
| RouteNames.LastSegment | gorm/controller.go:94-97 | the segment is a suffix of the package path without `/`, preceded by `/` when it is not the whole path |
| RouteNames.ActionName | gorm/controller.go:98-100 | a name ending in `Controller` loses exactly that suffix; any other name is kept |
| RouteNames.ControllerParam | gorm/controller.go:93-102 | the parameter starts with `action=` and ends with `:` and the method |
| RouteNames.ControllerParamParts | gorm/controller.go:93-102 | the action parameter splits at `:` into `action=` plus the package's last segment, the trimmed name and the method |
| RouteNames.ControllerRoute | gorm/controller.go:105-110 | exactly `Get` and `Post` are overridden, both to the empty path |
| Controller.GormController.ParseSearchExpression | gorm/controller.go:146-183 | the fragment and parameters the loop builds, after the final cut and the fallback, are exactly SearchPredicate of the columns and the search text |
| Controller.GormController.ParseSearchLike | gorm/controller.go:185-205 | the loop builds exactly LikeScan: the clauses of the columns whose kind is the text's type, joined by OR, each with the parsed value |
| SearchType.ParseInt | gorm/controller.go:208-211 | an accepted integer lies within int64 |
| SearchType.ParseFormatInt | gorm/controller.go:208-211 | every int64 printed in decimal parses back to itself |
| SearchType.ParseBool | gorm/controller.go:218-221 | true exactly for `1`, `t`, `T`, `TRUE`, `true`, `True`; false exactly for `0`, `f`, `F`, `FALSE`, `false`, `False`; any other text is an error |
| SearchType.ParseFormatBool | gorm/controller.go:218-221 | a printed boolean parses back to itself |
| SearchType.ParseSearchType | gorm/controller.go:207-224 | int exactly when ParseInt succeeds (with its value); float exactly when ParseInt fails and ParseFloat succeeds; bool exactly when both fail and ParseBool succeeds (with its value); otherwise the text itself |
| SearchType.OneAndZeroAreIntegers | gorm/controller.go:208-221 | `1` and `0` are typed int, never bool |
| SearchType.PrintedIntegersAreIntegers | gorm/controller.go:208-211 | a printed int64 is typed int with its own value |
| SearchType.PrintedBooleansAreBooleans | gorm/controller.go:218-221 | `true` and `false` are typed bool with their value unless ParseFloat accepts them |
| Tokenizer.Tokens | gorm/controller.go:143 | every token is non-empty, starts with a non-space character and holds no newline; a token without a quote holds no space |
| Tokenizer.TokensLoseOnlySpace | gorm/controller.go:143 | the tokens, with whitespace removed and concatenated, spell the search text with whitespace removed: no other character is lost or added |
| Tokenizer.TokenEndFollowsRegex | gorm/controller.go:143 | a token ends where the leftmost-first matcher ends it: the run of non-space characters, or the highest-priority quoted reading (latest opening quote, then latest closing quote) |
| Tokenizer.QuotedValueExample | gorm/controller.go:143 | `a='x y' b` gives the tokens `a='x y'` and `b` |
| Tokenizer.WordIsOneToken | gorm/controller.go:143 | a non-empty text without spaces or quotes is one token |
| ClauseMatcher.MatchClause | gorm/controller.go:144 | a token has no match exactly when no operator begins anywhere in it |
| ClauseMatcher.Operator | gorm/controller.go:144 | an operator is found exactly at `=`, `>`, `<`, `~`, `:`, `!=` or `!~`, and it is always a selectable one |
| ClauseMatcher.OperatorIsFirstAlternative | gorm/controller.go:144 | the operator read is the first alternative of the pattern, in the pattern's order, that matches |
| ClauseMatcher.MatchClauseAnatomy | gorm/controller.go:144 | a match splits the token into a prefix, a maximal run of word characters ending at the first operator, that operator, and the rest of the line as the value |
| ClauseMatcher.MatchedNameIsWord | gorm/controller.go:144 | a matched name is made of word characters and its operator is selectable |
| ClauseMatcher.GreaterOrEqualIsShadowed | gorm/controller.go:144 | `age>=18` matches as name `age`, operator `>`, value `=18` |
| ClauseMatcher.SingleCharClause | gorm/controller.go:144 | `name op value` with a word name, a one-character operator and a one-line value matches as those three parts |
| Search.Rewrite | gorm/controller.go:160-174 | the name is kept; `~` becomes LIKE and `!~` becomes NOT LIKE, each with the value wrapped in `%`; a `:` with a comma in the value becomes IN with the comma split of the value as a list parameter (and only then is the parameter a list); every other operator is kept with the value as it is |
| Search.RewriteListItems | gorm/controller.go:166-171 | an IN list has at least two items, none holding a comma, and joined by commas they give back the typed value |
| Search.RewriteLosesNothing | gorm/controller.go:160-174 | the matched clause can be read back from its rewritten piece |
| Search.SearchPredicate | gorm/controller.go:146-183 | the result is either the structured fragment with one parameter per compiled clause or the fallback search, and a result with no parameter is always the fallback |
| Search.UnmatchedStep | gorm/controller.go:151-155 | on a token with no match, replacing a trailing `AND ` by `OR ` is turning the last joiner into OR, and otherwise nothing changes; no parameter is added |
| Search.AcceptedStep | gorm/controller.go:169-174 | an accepted clause appends `name op ? AND ` to the text and its parameter to the list |
| Search.RenderFlip | gorm/controller.go:152-153 | the text ends in `AND ` exactly when the last joiner is AND, and the four-character replacement turns that joiner into OR |
| Search.RenderTrim | gorm/controller.go:176-178 | the text ends in ` AND ` or ` OR ` exactly when a clause was accepted, and cutting four characters gives the final fragment |
| Search.CompileIsReference | gorm/controller.go:149-175 | the loop's left-to-right result equals the reading from the front: one piece per accepted token in order, joined to the next by OR exactly when an unmatched token lies between them |
| Search.ReferenceLength | gorm/controller.go:149-175 | there is one piece per accepted token, and there are pieces exactly when some token is a clause on a known column |
| Search.StructuredExactlyWhenAccepted | gorm/controller.go:176-182 | the structured fragment, with one parameter per accepted token, is returned exactly when some token is accepted; otherwise the fallback search is |
| Search.OrBetweenClauses | gorm/controller.go:149-178 | `a u b` with an unmatched `u` compiles to `a OR b` followed by a space |
| Search.UnknownColumnIgnored | gorm/controller.go:157-159 | removing a clause on an unknown column from anywhere in the tokens changes nothing |
| Search.OneClause | gorm/controller.go:146-182 | a text that is one token and one accepted clause gives that clause plus a space, and its one parameter |
| Search.SimpleSearch | gorm/controller.go:146-182 | `name op value` on a known column, with a one-character operator and a value without spaces or quotes, compiles to that single clause |
| Search.RewriteIn | gorm/controller.go:166-171 | `id:1,2,3` is written `id IN ?` with the list `1`, `2`, `3` |
| Search.SearchNameEquals | gorm/controller.go:146-183 | `name=alice` compiles to `name = ? ` with the parameter `alice` |
| Search.SearchNameLike | gorm/controller.go:146-183 | `name~ali` compiles to `name LIKE ? ` with the parameter `%ali%` |
| Search.SearchIdIn | gorm/controller.go:146-183 | `id:1,2,3` compiles to `id IN ? ` with one list parameter `["1","2","3"]` |
| Search.CompileWellFormed | gorm/controller.go:157-169 | no compiled name or operator holds a `?` |
| Search.FragmentPlaceholders | gorm/controller.go:169-178 | the structured fragment has exactly one `?` per parameter |
| Search.LikeScan | gorm/controller.go:185-205 | at most one parameter per column, each being the value the whole text parses as |
| Search.LikeClausesMembership | gorm/controller.go:190-203 | a fallback clause is produced exactly for each column whose kind is the searched type and that has a clause form |
| Search.LikeClausesOnlyComparable | gorm/controller.go:194-202 | time columns, and types other than string, int and bool, contribute no clause |
| Search.FloatAndBoolFindNoColumn | gorm/controller.go:190-203 | a text typed float or bool matches no classified column, so the fallback is empty with no parameters |
| Search.TextSearchKeepsText | gorm/controller.go:195-197 | for a text typed string, every fallback parameter is the text itself, with no `%` added |
| Search.LikeScanPlaceholders | gorm/controller.go:185-205 | the fallback fragment has exactly one `?` per parameter |
| Search.SearchPlaceholdersMatchParams | gorm/controller.go:146-205 | whichever branch is taken, the `?` count equals the parameter count, provided no column name holds a `?` |
| Text.JoinSplit | gorm/controller.go:171 | joining the parts of a split with the separator gives back the text |
| Machine.Wrap | gorm/controller.go:139 | values within int64 are kept; others are reduced modulo 2^64 into the int64 range |
| Machine.Mul | gorm/controller.go:139 | `size * page` is the true product when it fits in int64, and otherwise the int64 value equal to it modulo 2^64 |
| Machine.MulWrapsAround | gorm/controller.go:139 | a page size of 2^62 on page 4 gives offset 0; the largest int64 times 2 gives -2 |
| Gorm.Storage.Count | gorm/controller.go:135 | one Count call on the query is logged and its answer returned |
| Gorm.Storage.Find | gorm/controller.go:139 | one Find call on the query is logged and its rows returned |
| Gorm.Storage.AutoMigrate | gorm/controller.go:31 | one Migrate call on the model is logged and nothing else changes |
| Gorm.Storage.Write | gorm/controller.go:249 | one writing call (`Save`, `Updates` or `Delete`, also at lines 259 and 265) is logged; its error and the destination as the call leaves it are returned |
| Controller.GormController.Get | gorm/controller.go:122-141 | a bind error returns before any database call; otherwise one count over the scoped search query; on a count error or a zero total, no fetch; otherwise one fetch of `size` rows at offset `size*page` (int64) in the requested order, its rows or error returned with the total |
| Controller.GormController.GetById | gorm/controller.go:236-240 | one scoped find by id; the first row, or the zero record with no error when there is none; on failure the zero record and the error |
| Controller.GormController.Post | gorm/controller.go:243-250 | a bind error returns before any database call; otherwise exactly one Save of the bound record in the policy scope, its error, and the record as Save leaves it (with what the database filled in) |
| Controller.GormController.PutById | gorm/controller.go:253-260 | a bind error returns before any database call; otherwise exactly one Updates of the bound record on the scoped by-id query, its error, and the record as Updates leaves it |
| Controller.GormController.DeleteById | gorm/controller.go:263-267 | exactly one Delete on the scoped by-id query, and its error |

## Left out

- `strconv.ParseFloat` is the parameter `isFloat` (which texts it accepts). The float value never reaches a query, because no column kind is "float".
- Controller.GormController.ControllerGroup: `strings.ToLower` (the branch for names other than `GormController`) is modelled on ASCII only; Unicode case mapping is not modelled. The rune loop of the other branch tests ASCII capitals itself and is modelled exactly.
- What the database holds, and gorm's semantics for each call, are left out. `Storage` answers Count, Find and the writing calls from fixed functions, including what a write leaves in its destination (`writeBack`). `Save` being an insert-or-update, which fields it fills in, and partial results of a failed `Find`, are therefore not modelled.
- Controller.GormController.Get: on a count error, `Total` is whatever the bound paging value held. gorm's handling of the destination on error is not modelled.
- Reflection is left out: `reflect.New(ctl.ModelType)` and binding into it. A model value is a `Record` (a map of fields), and the zero value is the empty map. `ctx.Bind` and `ctx.GetParam` are fields of the request context.
- `getGormTableName` (gorm's schema parser) is left out. The table name is given with the model.
- `policy.CreateExpressions` is an opaque function of the table and columns giving a WHERE fragment. What the policy allows is not modelled.
- Attaching the request logger to the query context (`WithContext`) is left out, because it does not change which rows are read or written.
- The errors of `AutoMigrate` are ignored by the source, and the model ignores them too.
- `db.Model(model)` is folded into the query: each query is on the model's table.
- Routing, HTTP encoding, tracing, metrics and logging in the rest of the repository (`app.go`, `tracer`, `prometheus`, `gorm/gorm.go`, `gorm/logger.go`) are not part of this model.
- Pagination results (which rows a page holds) and read-your-writes round trips depend on the database contents, which are not modelled.
