/**
 * What the search compiler of the controller computes, as functions of the
 * search text and the model's columns.
 *
 * The structured search turns the tokens of the text into accepted clauses
 * ("pieces"), each rendered `name op ? ` followed by a joiner `AND ` or `OR `;
 * the fallback search compares the whole text with every column whose type
 * matches the type the text parses as.
 */
module Search {
  import opened Wrappers
  import opened Text
  import opened Tokenizer
  import opened ClauseMatcher
  import opened SearchType
  import opened Gorm

  // ---------------------------------------------------------------------------
  // Structured search
  // ---------------------------------------------------------------------------

  datatype Joiner = And | Or

  /** An accepted clause: `name op ?`, its parameter, and the joiner written after it. */
  datatype Piece = Piece(name: string, op: string, param: Param, joiner: Joiner)

  /** The operators an accepted clause can carry once rewritten. */
  const Emitted: set<string> := {"=", ">", "<", "!=", "LIKE", "NOT LIKE", ":", "IN"}

  /**
   * The rewrite of a matched clause: `~` and `!~` become LIKE and NOT LIKE with
   * the value wrapped in `%`, a `:` whose value holds a comma becomes IN with
   * the comma-separated parts as one list parameter, and every other operator
   * (a comma-free `:` included) is kept with the value as it is.
   */
  function Rewrite(m: Match): (p: Piece)
    ensures p.name == m.name && p.joiner == And
    ensures m.op in Selectable ==> p.op in Emitted
    ensures m.op in Selectable ==> (p.op == "IN" <==> m.op == ":" && ',' in m.value)
    ensures m.op in Selectable ==> (p.param.List? <==> p.op == "IN")
    ensures p.param.List? || p.param.Str?
    ensures m.op == "~" ==> p.op == "LIKE" && p.param == Str("%" + m.value + "%")
    ensures m.op == "!~" ==> p.op == "NOT LIKE" && p.param == Str("%" + m.value + "%")
    ensures m.op == ":" && ',' in m.value ==> p.op == "IN" && p.param == List(Split(m.value, ','))
    ensures m.op != "~" && m.op != "!~" && !(m.op == ":" && ',' in m.value) ==>
      p.op == m.op && p.param == Str(m.value)
  {
    if m.op == "~" then Piece(m.name, "LIKE", Str("%" + m.value + "%"), And)
    else if m.op == "!~" then Piece(m.name, "NOT LIKE", Str("%" + m.value + "%"), And)
    else if m.op == ":" && ',' in m.value then Piece(m.name, "IN", List(Split(m.value, ',')), And)
    else Piece(m.name, m.op, Str(m.value), And)
  }

  /** The clause a piece was written from: the inverse of Rewrite. */
  function Original(p: Piece): Match {
    match p.param
    case List(items) => Match(p.name, ":", Join(items, ","))
    case Str(s) =>
      if p.op == "LIKE" && |s| >= 2 then Match(p.name, "~", s[1..|s| - 1])
      else if p.op == "NOT LIKE" && |s| >= 2 then Match(p.name, "!~", s[1..|s| - 1])
      else Match(p.name, p.op, s)
    case _ => Match(p.name, p.op, "")
  }

  /** The rewrite loses nothing: the matched clause can be read back from its piece. */
  lemma RewriteLosesNothing(m: Match)
    requires m.op in Selectable
    ensures Original(Rewrite(m)) == m
  {
    if m.op == "~" || m.op == "!~" {
      var s := "%" + m.value + "%";
      assert s[1..|s| - 1] == m.value;
    } else if m.op == ":" && ',' in m.value {
      JoinSplit(m.value, ',');
    }
  }

  /**
   * The list of an IN clause has at least two items, none holding a comma,
   * and joined with commas they give back the value that was typed.
   */
  lemma RewriteListItems(m: Match)
    requires Rewrite(m).param.List?
    ensures var items := Rewrite(m).param.items;
      && |items| >= 2
      && (forall i :: 0 <= i < |items| ==> ',' !in items[i])
      && Join(items, ",") == m.value
  {
    CountCharPresent(m.value, ',');
    SplitPartsFree(m.value, ',');
    JoinSplit(m.value, ',');
  }

  /** The token is a clause on one of the model's columns. */
  predicate Accepted(names: seq<string>, t: string) {
    MatchClause(t).Some? && MatchClause(t).value.name in names
  }

  /**
   * One turn of the loop: an unmatched token turns a trailing AND into OR, a
   * clause on an unknown column is skipped, any other clause is appended.
   */
  function Step(names: seq<string>, ps: seq<Piece>, token: string): seq<Piece> {
    match MatchClause(token)
    case None =>
      if |ps| > 0 && ps[|ps| - 1].joiner == And then ps[..|ps| - 1] + [ps[|ps| - 1].(joiner := Or)] else ps
    case Some(m) =>
      if m.name in names then ps + [Rewrite(m)] else ps
  }

  /** The pieces after the loop has consumed `tokens`. */
  function Compile(names: seq<string>, tokens: seq<string>): seq<Piece>
    decreases |tokens|
  {
    if tokens == [] then [] else Step(names, Compile(names, tokens[..|tokens| - 1]), tokens[|tokens| - 1])
  }

  function JoinerText(j: Joiner): string {
    if j == And then " AND " else " OR "
  }

  /** `name op ?`: an accepted clause without its joiner. */
  function Clause(p: Piece): string {
    p.name + " " + p.op + " ?"
  }

  /** `fmt.Sprintf("%s %s ? AND ", name, op)`, with the joiner the piece has now. */
  function PieceText(p: Piece): string {
    Clause(p) + JoinerText(p.joiner)
  }

  /** The fragment as the loop leaves it. */
  function Render(ps: seq<Piece>): string
    decreases |ps|
  {
    if ps == [] then "" else Render(ps[..|ps| - 1]) + PieceText(ps[|ps| - 1])
  }

  /** The parameters, one per piece, in order. */
  function Params(ps: seq<Piece>): (vals: seq<Param>)
    ensures |vals| == |ps|
  {
    seq(|ps|, i requires 0 <= i < |ps| => ps[i].param)
  }

  /**
   * The fragment once the final joiner is dropped: a final OR goes entirely,
   * a final AND leaves the space in front of it.
   */
  function Fragment(ps: seq<Piece>): string {
    if ps == [] then ""
    else
      var last := ps[|ps| - 1];
      Render(ps[..|ps| - 1]) + Clause(last) + (if last.joiner == And then " " else "")
  }

  /**
   * `parseSearchExpression(key)`: the structured result when at least one
   * clause was accepted, otherwise the fallback search over the whole text.
   */
  function SearchPredicate(names: seq<string>, typs: seq<string>, key: string, isFloat: string -> bool): (c: Cond)
    requires |names| == |typs|
    ensures c.vals == Params(Compile(names, Tokens(key))) || c == LikeScan(names, typs, key, isFloat)
    ensures |c.vals| == 0 ==> c == LikeScan(names, typs, key, isFloat)
  {
    var ps := Compile(names, Tokens(key));
    if |ps| > 0 then Cond(Fragment(ps), Params(ps)) else LikeScan(names, typs, key, isFloat)
  }

  // --- the fragment as text ---------------------------------------------------

  /** An accepted clause is written with a trailing ` AND `. */
  lemma PieceTextAnd(p: Piece)
    requires p.joiner == And
    ensures PieceText(p) == p.name + " " + p.op + " ? AND "
  {
    assert " ?" + " AND " == " ? AND ";
  }

  /** Appending a piece appends its text and its parameter. */
  lemma AppendPiece(ps: seq<Piece>, p: Piece)
    ensures Render(ps + [p]) == Render(ps) + PieceText(p)
    ensures Params(ps + [p]) == Params(ps) + [p.param]
  {
    assert (ps + [p])[..|ps|] == ps;
  }

  /** The last piece with its joiner turned to OR. */
  function FlipLast(ps: seq<Piece>): seq<Piece>
    requires |ps| > 0
  {
    ps[..|ps| - 1] + [ps[|ps| - 1].(joiner := Or)]
  }

  /** The rendered fragment is everything before the last joiner, then that joiner. */
  lemma RenderLast(ps: seq<Piece>)
    requires |ps| > 0
    ensures Render(ps) == (Render(ps[..|ps| - 1]) + Clause(ps[|ps| - 1])) + JoinerText(ps[|ps| - 1].joiner)
  {
  }

  lemma AndTail(x: string)
    ensures HasSuffix(x + " AND ", "AND ") && HasSuffix(x + " AND ", " AND ")
    ensures (x + " AND ")[..|x| + 1] == x + " "
    ensures (x + " AND ")[..|x| + 1] + "OR " == x + " OR "
  {
    var r := x + " AND ";
    assert r[|r| - 5..] == " AND ";
    assert r[|r| - 4..] == "AND ";
  }

  lemma OrTail(x: string)
    ensures !HasSuffix(x + " OR ", "AND ") && HasSuffix(x + " OR ", " OR ")
    ensures (x + " OR ")[..|x|] == x
  {
    var r := x + " OR ";
    assert r[|r| - 4..] == " OR ";
    assert r[|r| - 4] == ' ';
  }

  lemma RenderFlipLast(ps: seq<Piece>)
    requires |ps| > 0
    ensures Render(FlipLast(ps)) == (Render(ps[..|ps| - 1]) + Clause(ps[|ps| - 1])) + " OR "
  {
    var f := FlipLast(ps);
    assert f[..|f| - 1] == ps[..|ps| - 1];
    RenderLast(f);
  }

  lemma FlipKeepsParams(ps: seq<Piece>)
    requires |ps| > 0
    ensures Params(FlipLast(ps)) == Params(ps)
  {
    var f := FlipLast(ps);
    assert forall i :: 0 <= i < |ps| ==> f[i].param == ps[i].param;
  }

  /**
   * The loop's test `HasSuffix(sql, "AND ")` reads the last joiner, and
   * replacing those four characters by `OR ` is turning that joiner to OR;
   * the parameters are untouched.
   */
  lemma RenderFlip(ps: seq<Piece>)
    ensures HasSuffix(Render(ps), "AND ") <==> |ps| > 0 && ps[|ps| - 1].joiner == And
    ensures |ps| > 0 && ps[|ps| - 1].joiner == And ==>
      Render(ps)[..|Render(ps)| - 4] + "OR " == Render(FlipLast(ps)) && Params(FlipLast(ps)) == Params(ps)
  {
    if |ps| > 0 {
      var last := ps[|ps| - 1];
      var x := Render(ps[..|ps| - 1]) + Clause(last);
      RenderLast(ps);
      if last.joiner == And {
        AndTail(x);
        RenderFlipLast(ps);
        FlipKeepsParams(ps);
      } else {
        OrTail(x);
      }
    }
  }

  /**
   * The final trim: the fragment ends in ` AND ` or ` OR ` exactly when a
   * clause was accepted, and dropping its last four characters gives Fragment.
   */
  lemma RenderTrim(ps: seq<Piece>)
    ensures HasSuffix(Render(ps), " AND ") || HasSuffix(Render(ps), " OR ") <==> |ps| > 0
    ensures |ps| > 0 ==> |Render(ps)| >= 4 && Render(ps)[..|Render(ps)| - 4] == Fragment(ps)
  {
    if |ps| > 0 {
      var last := ps[|ps| - 1];
      var x := Render(ps[..|ps| - 1]) + Clause(last);
      RenderLast(ps);
      if last.joiner == And {
        AndTail(x);
      } else {
        OrTail(x);
      }
    }
  }

  /** The loop consumes one more token. */
  lemma CompileNext(names: seq<string>, tokens: seq<string>, i: nat)
    requires i < |tokens|
    ensures Compile(names, tokens[..i + 1]) == Step(names, Compile(names, tokens[..i]), tokens[i])
  {
    assert tokens[..i + 1][..i] == tokens[..i];
  }

  /** An unmatched token, as the loop handles it on the rendered text. */
  lemma UnmatchedStep(names: seq<string>, ps: seq<Piece>, token: string, sql: string)
    requires MatchClause(token).None? && sql == Render(ps)
    ensures HasSuffix(sql, "AND ") ==> |sql| >= 4 && sql[..|sql| - 4] + "OR " == Render(Step(names, ps, token))
    ensures !HasSuffix(sql, "AND ") ==> sql == Render(Step(names, ps, token))
    ensures Params(Step(names, ps, token)) == Params(ps)
  {
    RenderFlip(ps);
    if |ps| > 0 && ps[|ps| - 1].joiner == And {
      FlipKeepsParams(ps);
    }
  }

  /** An accepted clause, as the loop handles it on the rendered text. */
  lemma AcceptedStep(names: seq<string>, ps: seq<Piece>, token: string)
    requires Accepted(names, token)
    ensures var p := Rewrite(MatchClause(token).value);
      && Render(Step(names, ps, token)) == Render(ps) + (p.name + " " + p.op + " ? AND ")
      && Params(Step(names, ps, token)) == Params(ps) + [p.param]
  {
    var p := Rewrite(MatchClause(token).value);
    PieceTextAnd(p);
    AppendPiece(ps, p);
  }

  // --- the joiners, read off the token sequence -------------------------------

  /** An unmatched token comes before the next accepted clause. */
  function OrFollows(names: seq<string>, ts: seq<string>): bool
    decreases |ts|
  {
    if ts == [] then false
    else if MatchClause(ts[0]).None? then true
    else if Accepted(names, ts[0]) then false
    else OrFollows(names, ts[1..])
  }

  /**
   * The pieces read from the front: one per accepted token, in order, joined
   * to the next by OR exactly when an unmatched token lies between them (or,
   * for the last one, after it).
   */
  function Reference(names: seq<string>, ts: seq<string>): seq<Piece>
    decreases |ts|
  {
    if ts == [] then []
    else if Accepted(names, ts[0]) then
      [Rewrite(MatchClause(ts[0]).value).(joiner := if OrFollows(names, ts[1..]) then Or else And)]
      + Reference(names, ts[1..])
    else Reference(names, ts[1..])
  }

  lemma {:induction false} OrFollowsSnoc(names: seq<string>, r: seq<string>, t: string)
    ensures MatchClause(t).Some? ==> OrFollows(names, r + [t]) == OrFollows(names, r)
    ensures MatchClause(t).None? ==> OrFollows(names, r + [t]) == (OrFollows(names, r) || Reference(names, r) == [])
    decreases |r|
  {
    if r == [] {
      assert r + [t] == [t];
    } else {
      assert (r + [t])[0] == r[0] && (r + [t])[1..] == r[1..] + [t];
      OrFollowsSnoc(names, r[1..], t);
    }
  }

  /** Reading one more token from the front's point of view is one more Step. */
  lemma {:induction false} ReferenceSnoc(names: seq<string>, r: seq<string>, t: string)
    ensures Reference(names, r + [t]) == Step(names, Reference(names, r), t)
    decreases |r|
  {
    if r == [] {
      assert r + [t] == [t];
      assert [t][1..] == [];
    } else {
      var h, rest := r[0], r[1..];
      assert (r + [t])[0] == h && (r + [t])[1..] == rest + [t];
      ReferenceSnoc(names, rest, t);
      OrFollowsSnoc(names, rest, t);
      if Accepted(names, h) {
        var head := Rewrite(MatchClause(h).value);
        var P := Reference(names, rest);
        var h1 := head.(joiner := if OrFollows(names, rest) then Or else And);
        var h2 := head.(joiner := if OrFollows(names, rest + [t]) then Or else And);
        assert Reference(names, r) == [h1] + P;
        assert Reference(names, r + [t]) == [h2] + Step(names, P, t);
        match MatchClause(t)
        case Some(m) =>
          if m.name in names {
            assert [h1] + (P + [Rewrite(m)]) == ([h1] + P) + [Rewrite(m)];
          }
        case None =>
          if P == [] {
            assert Step(names, [h1], t) == [h2];
          } else {
            var L := ([h1] + P)[..|P|];
            assert L == [h1] + P[..|P| - 1];
            assert ([h1] + P)[|P|] == P[|P| - 1];
          }
      }
    }
  }

  /** The loop's left-to-right joiner rewriting agrees with the reading from the front. */
  lemma {:induction false} CompileIsReference(names: seq<string>, ts: seq<string>)
    ensures Compile(names, ts) == Reference(names, ts)
    decreases |ts|
  {
    if ts != [] {
      var init := ts[..|ts| - 1];
      CompileIsReference(names, init);
      ReferenceSnoc(names, init, ts[|ts| - 1]);
      assert init + [ts[|ts| - 1]] == ts;
    }
  }

  /** The number of tokens that are clauses on known columns. */
  function AcceptedCount(names: seq<string>, ts: seq<string>): nat
    decreases |ts|
  {
    if ts == [] then 0 else (if Accepted(names, ts[0]) then 1 else 0) + AcceptedCount(names, ts[1..])
  }

  lemma {:induction false} ReferenceLength(names: seq<string>, ts: seq<string>)
    ensures |Reference(names, ts)| == AcceptedCount(names, ts)
    ensures AcceptedCount(names, ts) > 0 <==> exists i :: 0 <= i < |ts| && Accepted(names, ts[i])
    decreases |ts|
  {
    if ts != [] {
      ReferenceLength(names, ts[1..]);
      if exists i :: 0 <= i < |ts| && Accepted(names, ts[i]) {
        var i :| 0 <= i < |ts| && Accepted(names, ts[i]);
        if i > 0 {
          assert ts[1..][i - 1] == ts[i];
        }
      }
    }
  }

  /**
   * The structured result is used exactly when some token is a clause on a
   * known column, and then it has one parameter per such token; otherwise
   * the whole text goes to the fallback search.
   */
  lemma StructuredExactlyWhenAccepted(names: seq<string>, typs: seq<string>, key: string, isFloat: string -> bool)
    requires |names| == |typs|
    ensures var ts := Tokens(key);
      (exists i :: 0 <= i < |ts| && Accepted(names, ts[i])) ==>
        var ps := Compile(names, ts);
        SearchPredicate(names, typs, key, isFloat) == Cond(Fragment(ps), Params(ps))
        && |SearchPredicate(names, typs, key, isFloat).vals| == AcceptedCount(names, ts)
    ensures var ts := Tokens(key);
      !(exists i :: 0 <= i < |ts| && Accepted(names, ts[i])) ==>
        SearchPredicate(names, typs, key, isFloat) == LikeScan(names, typs, key, isFloat)
  {
    CompileIsReference(names, Tokens(key));
    ReferenceLength(names, Tokens(key));
  }

  /** Two pieces of which the first was turned into OR, as the trimmed fragment shows them. */
  lemma FragmentOfTwo(p: Piece, q: Piece)
    requires q.joiner == And
    ensures Fragment([p.(joiner := Or), q]) == Clause(p) + " OR " + Clause(q) + " "
  {
    var ps := [p.(joiner := Or), q];
    assert ps[..1] == [p.(joiner := Or)];
    assert [p.(joiner := Or)][..0] == [];
    assert Render([p.(joiner := Or)]) == Clause(p) + " OR ";
    assert Fragment(ps) == Render(ps[..1]) + Clause(q) + " ";
  }

  lemma CompileOfThree(names: seq<string>, a: string, u: string, b: string)
    requires Accepted(names, a) && MatchClause(u).None? && Accepted(names, b)
    ensures Compile(names, [a, u, b])
         == [Rewrite(MatchClause(a).value).(joiner := Or), Rewrite(MatchClause(b).value)]
  {
    var ts := [a, u, b];
    CompileNext(names, ts, 0);
    CompileNext(names, ts, 1);
    CompileNext(names, ts, 2);
    assert ts[..0] == [] && ts[..3] == ts;
  }

  /**
   * `a u b` with `a`, `b` clauses on known columns and `u` unmatched reads as
   * `a OR b`, and the final AND that is cut leaves a space behind.
   */
  lemma OrBetweenClauses(names: seq<string>, a: string, u: string, b: string)
    requires Accepted(names, a) && MatchClause(u).None? && Accepted(names, b)
    ensures var pa, pb := Rewrite(MatchClause(a).value), Rewrite(MatchClause(b).value);
      && Compile(names, [a, u, b]) == [pa.(joiner := Or), pb]
      && Fragment(Compile(names, [a, u, b])) == Clause(pa) + " OR " + Clause(pb) + " "
  {
    CompileOfThree(names, a, u, b);
    FragmentOfTwo(Rewrite(MatchClause(a).value), Rewrite(MatchClause(b).value));
  }

  /** A search text that is one clause on a known column gives that clause, its parameter, and a trailing space. */
  lemma OneClause(names: seq<string>, typs: seq<string>, key: string, isFloat: string -> bool)
    requires |names| == |typs| && Tokens(key) == [key] && Accepted(names, key)
    ensures var p := Rewrite(MatchClause(key).value);
      SearchPredicate(names, typs, key, isFloat) == Cond(Clause(p) + " ", [p.param])
  {
    var p := Rewrite(MatchClause(key).value);
    assert [key][..0] == [];
    assert Compile(names, [key]) == [p];
    assert [p][..0] == [];
  }

  /**
   * A search text `name op value` on a known column, with a one-character
   * operator and a value without spaces or quotes, is that one clause.
   */
  lemma SimpleSearch(names: seq<string>, typs: seq<string>, key: string, name: string, op: string, value: string, isFloat: string -> bool)
    requires key == name + op + value
    requires |names| == |typs| && name in names
    requires forall i :: 0 <= i < |name| ==> IsWordChar(name[i])
    requires op in {"=", ">", "<", "~", ":"}
    requires '\'' !in value && forall i :: 0 <= i < |value| ==> !IsSpace(value[i])
    ensures var p := Rewrite(Match(name, op, value));
      SearchPredicate(names, typs, key, isFloat) == Cond(Clause(p) + " ", [p.param])
  {
    assert '\n' !in value by {
      assert IsSpace('\n');
    }
    SingleCharClause(name, op, value);
    forall j | 0 <= j < |key| ensures !IsSpace(key[j]) && key[j] != '\'' {
      if j < |name| {
        assert key[j] == name[j];
      } else if j > |name| {
        assert key[j] == value[j - |name| - 1];
      }
    }
    WordIsOneToken(key);
    OneClause(names, typs, key, isFloat);
  }

  /** `name=alice` is written `name = ?` with the value as it is. */
  lemma RewriteEquals()
    ensures var p := Rewrite(Match("name", "=", "alice"));
      Clause(p) + " " == "name = ? " && p.param == Str("alice")
  {
  }

  /** `name~ali` is written `name LIKE ?` with the value wrapped in `%`. */
  lemma RewriteLike()
    ensures var p := Rewrite(Match("name", "~", "ali"));
      Clause(p) + " " == "name LIKE ? " && p.param == Str("%ali%")
  {
  }

  /** `id:1,2,3` is written `id IN ?` with the list of the three values. */
  lemma RewriteIn()
    ensures var p := Rewrite(Match("id", ":", "1,2,3"));
      Clause(p) + " " == "id IN ? " && p.param == List(["1", "2", "3"])
  {
    assert "1,2,3"[1] == ',';
    SplitNoSeparator("3", ',');
    SplitFirst("2", "3", ',');
    assert "2" + [','] + "3" == "2,3";
    SplitFirst("1", "2,3", ',');
    assert "1" + [','] + "2,3" == "1,2,3";
  }

  /** `name=alice` on a model with a `name` column. */
  lemma SearchNameEquals(names: seq<string>, typs: seq<string>, key: string, isFloat: string -> bool)
    requires key == "name=alice"
    requires |names| == |typs| && "name" in names
    ensures SearchPredicate(names, typs, key, isFloat) == Cond("name = ? ", [Str("alice")])
  {
    SimpleSearch(names, typs, key, "name", "=", "alice", isFloat);
    RewriteEquals();
  }

  /** `name~ali` on a model with a `name` column: the value is wrapped in `%`. */
  lemma SearchNameLike(names: seq<string>, typs: seq<string>, key: string, isFloat: string -> bool)
    requires key == "name~ali"
    requires |names| == |typs| && "name" in names
    ensures SearchPredicate(names, typs, key, isFloat) == Cond("name LIKE ? ", [Str("%ali%")])
  {
    SimpleSearch(names, typs, key, "name", "~", "ali", isFloat);
    RewriteLike();
  }

  /** `id:1,2,3` on a model with an `id` column: one list parameter. */
  lemma SearchIdIn(names: seq<string>, typs: seq<string>, key: string, isFloat: string -> bool)
    requires key == "id:1,2,3"
    requires |names| == |typs| && "id" in names
    ensures SearchPredicate(names, typs, key, isFloat) == Cond("id IN ? ", [List(["1", "2", "3"])])
  {
    SimpleSearch(names, typs, key, "id", ":", "1,2,3", isFloat);
    RewriteIn();
  }

  /** A token that matches but names no column of the model changes nothing, wherever it is. */
  lemma {:induction false} UnknownColumnIgnored(names: seq<string>, a: seq<string>, t: string, b: seq<string>)
    requires MatchClause(t).Some? && MatchClause(t).value.name !in names
    ensures Compile(names, a + [t] + b) == Compile(names, a + b)
  {
    CompileIsReference(names, a + [t] + b);
    CompileIsReference(names, a + b);
    ReferenceSkips(names, a, t, b);
  }

  lemma {:induction false} ReferenceSkips(names: seq<string>, a: seq<string>, t: string, b: seq<string>)
    requires MatchClause(t).Some? && MatchClause(t).value.name !in names
    ensures Reference(names, a + [t] + b) == Reference(names, a + b)
    ensures OrFollows(names, a + [t] + b) == OrFollows(names, a + b)
    decreases |a|
  {
    if a == [] {
      assert a + [t] + b == [t] + b && a + b == b;
      assert ([t] + b)[1..] == b;
    } else {
      assert (a + [t] + b)[0] == a[0] && (a + [t] + b)[1..] == a[1..] + [t] + b;
      assert (a + b)[0] == a[0] && (a + b)[1..] == a[1..] + b;
      ReferenceSkips(names, a[1..], t, b);
    }
  }

  // --- well-formedness and placeholder count ----------------------------------

  /** No placeholder character in the name or the operator of a piece. */
  predicate WellFormed(p: Piece) {
    '?' !in p.name && '?' !in p.op
  }

  lemma EmittedHasNoPlaceholder(op: string)
    requires op in Emitted
    ensures '?' !in op
  {
    if op == "NOT LIKE" {
    } else if op == "LIKE" {
    } else if op == "!=" {
    } else if op == "IN" {
    }
  }

  lemma {:induction false} CompileWellFormed(names: seq<string>, ts: seq<string>)
    ensures forall i :: 0 <= i < |Compile(names, ts)| ==> WellFormed(Compile(names, ts)[i])
    decreases |ts|
  {
    if ts != [] {
      var init := ts[..|ts| - 1];
      var t := ts[|ts| - 1];
      CompileWellFormed(names, init);
      if MatchClause(t).Some? {
        var m := MatchClause(t).value;
        MatchedNameIsWord(t);
        EmittedHasNoPlaceholder(Rewrite(m).op);
        assert !IsWordChar('?');
      }
    }
  }

  /** Each clause holds exactly one placeholder. */
  lemma ClausePlaceholder(p: Piece)
    requires WellFormed(p)
    ensures CountChar(Clause(p), '?') == 1
  {
    var front := p.name + " " + p.op;
    CountCharAbsent(front, '?');
    CountCharAppend(front, " ?", '?');
    assert " ?"[1..] == "?" && "?"[1..] == "";
  }

  lemma JoinerPlaceholders(j: Joiner)
    ensures CountChar(JoinerText(j), '?') == 0
  {
    CountCharAbsent(JoinerText(j), '?');
  }

  lemma {:induction false} RenderPlaceholders(ps: seq<Piece>)
    requires forall i :: 0 <= i < |ps| ==> WellFormed(ps[i])
    ensures CountChar(Render(ps), '?') == |ps|
    decreases |ps|
  {
    if ps != [] {
      var last := ps[|ps| - 1];
      RenderPlaceholders(ps[..|ps| - 1]);
      ClausePlaceholder(last);
      JoinerPlaceholders(last.joiner);
      CountCharAppend(Clause(last), JoinerText(last.joiner), '?');
      CountCharAppend(Render(ps[..|ps| - 1]), PieceText(last), '?');
    }
  }

  lemma FragmentPlaceholders(ps: seq<Piece>)
    requires forall i :: 0 <= i < |ps| ==> WellFormed(ps[i])
    ensures CountChar(Fragment(ps), '?') == |Params(ps)|
  {
    if ps != [] {
      var last := ps[|ps| - 1];
      var tail := if last.joiner == And then " " else "";
      RenderPlaceholders(ps[..|ps| - 1]);
      ClausePlaceholder(last);
      CountCharAppend(Render(ps[..|ps| - 1]), Clause(last), '?');
      CountCharAppend(Render(ps[..|ps| - 1]) + Clause(last), tail, '?');
      CountCharAbsent(tail, '?');
    }
  }

  // ---------------------------------------------------------------------------
  // Fallback search
  // ---------------------------------------------------------------------------

  /** `getGormModelColumns`' reading of a database type name. */
  function ColumnKind(databaseType: string): (k: string)
    ensures k == "int" <==> databaseType == "int8"
    ensures k == "string" <==> databaseType == "text"
    ensures k == "time" <==> databaseType == "timestamptz"
    ensures k == "" <==> databaseType !in {"int8", "text", "timestamptz"}
  {
    if databaseType == "int8" then "int"
    else if databaseType == "text" then "string"
    else if databaseType == "timestamptz" then "time"
    else ""
  }

  /** The clause a column whose type is the search text's type contributes. */
  function ColumnClause(name: string, typ: string): Option<string> {
    if typ == "string" then Some(name + " LIKE ?")
    else if typ == "int" || typ == "bool" then Some(name + "=?")
    else None
  }

  /** The clauses of the columns of type `typ`, in column order. */
  function LikeClauses(names: seq<string>, typs: seq<string>, typ: string): (clauses: seq<string>)
    requires |names| == |typs|
    ensures |clauses| <= |typs|
    decreases |typs|
  {
    if typs == [] then []
    else
      var n := |typs| - 1;
      LikeClauses(names[..n], typs[..n], typ)
      + (if typs[n] == typ && ColumnClause(names[n], typ).Some? then [ColumnClause(names[n], typ).value] else [])
  }

  /** The parameter `parseSearchType`'s value becomes. */
  function ValueParam(v: SearchValue): Param {
    match v
    case IntValue(i) => Int(i)
    case FloatValue(t) => Flt(t)
    case BoolValue(b) => Bool(b)
    case StringValue(s) => Str(s)
  }

  /** `parseSearchLike(key)`: the clauses joined by OR, each with the parsed value as its parameter. */
  function LikeScan(names: seq<string>, typs: seq<string>, key: string, isFloat: string -> bool): (c: Cond)
    requires |names| == |typs|
    ensures |c.vals| <= |names|
    ensures forall i :: 0 <= i < |c.vals| ==> c.vals[i] == ValueParam(ParseSearchType(key, isFloat))
  {
    var v := ParseSearchType(key, isFloat);
    var clauses := LikeClauses(names, typs, TypeName(v));
    Cond(Join(clauses, " OR "), seq(|clauses|, _ => ValueParam(v)))
  }

  /** A clause is produced exactly for the columns of the searched type that have a clause form. */
  lemma {:induction false} LikeClausesMembership(names: seq<string>, typs: seq<string>, typ: string, c: string)
    requires |names| == |typs|
    ensures c in LikeClauses(names, typs, typ) <==>
      exists i :: 0 <= i < |typs| && typs[i] == typ && ColumnClause(names[i], typ) == Some(c)
    decreases |typs|
  {
    if typs != [] {
      var n := |typs| - 1;
      LikeClausesMembership(names[..n], typs[..n], typ, c);
      if exists i :: 0 <= i < |typs| && typs[i] == typ && ColumnClause(names[i], typ) == Some(c) {
        var i :| 0 <= i < |typs| && typs[i] == typ && ColumnClause(names[i], typ) == Some(c);
        if i < n {
          assert typs[..n][i] == typ && names[..n][i] == names[i];
        }
      }
    }
  }

  /** Time columns, and columns of no known type, never take part in the fallback search. */
  lemma {:induction false} LikeClausesOnlyComparable(names: seq<string>, typs: seq<string>, typ: string)
    requires |names| == |typs|
    requires typ !in {"string", "int", "bool"}
    ensures LikeClauses(names, typs, typ) == []
    decreases |typs|
  {
    if typs != [] {
      LikeClausesOnlyComparable(names[..|typs| - 1], typs[..|typs| - 1], typ);
    }
  }

  /**
   * Classified columns are "int", "string", "time" or "": a text that parses
   * as a float or as a boolean matches none of them, so the fallback search
   * is empty and has no parameters.
   */
  lemma {:induction false} FloatAndBoolFindNoColumn(names: seq<string>, typs: seq<string>, key: string, isFloat: string -> bool)
    requires |names| == |typs|
    requires forall i :: 0 <= i < |typs| ==> typs[i] in {"int", "string", "time", ""}
    requires ParseSearchType(key, isFloat).FloatValue? || ParseSearchType(key, isFloat).BoolValue?
    ensures LikeScan(names, typs, key, isFloat) == Cond("", [])
    decreases |typs|
  {
    if typs != [] {
      var n := |typs| - 1;
      FloatAndBoolFindNoColumn(names[..n], typs[..n], key, isFloat);
      assert typs[n] != TypeName(ParseSearchType(key, isFloat));
    }
  }

  /** Unlike `~`, the fallback search compares with the text as it is: no `%` is added. */
  lemma TextSearchKeepsText(names: seq<string>, typs: seq<string>, key: string, isFloat: string -> bool)
    requires |names| == |typs|
    requires ParseSearchType(key, isFloat).StringValue?
    ensures forall p :: p in LikeScan(names, typs, key, isFloat).vals ==> p == Str(key)
  {
  }

  lemma {:induction false} LikeClausesPlaceholders(names: seq<string>, typs: seq<string>, typ: string)
    requires |names| == |typs|
    requires forall i :: 0 <= i < |names| ==> '?' !in names[i]
    ensures forall i :: 0 <= i < |LikeClauses(names, typs, typ)| ==> CountChar(LikeClauses(names, typs, typ)[i], '?') == 1
    decreases |typs|
  {
    if typs != [] {
      var n := |typs| - 1;
      LikeClausesPlaceholders(names[..n], typs[..n], typ);
      CountCharAbsent(names[n], '?');
      CountCharAppend(names[n], " LIKE ?", '?');
      CountCharAppend(names[n], "=?", '?');
    }
  }

  /** The fallback fragment has one placeholder per parameter. */
  lemma LikeScanPlaceholders(names: seq<string>, typs: seq<string>, key: string, isFloat: string -> bool)
    requires |names| == |typs|
    requires forall i :: 0 <= i < |names| ==> '?' !in names[i]
    ensures CountChar(LikeScan(names, typs, key, isFloat).sql, '?') == |LikeScan(names, typs, key, isFloat).vals|
  {
    var clauses := LikeClauses(names, typs, TypeName(ParseSearchType(key, isFloat)));
    LikeClausesPlaceholders(names, typs, TypeName(ParseSearchType(key, isFloat)));
    CountCharJoin(clauses, " OR ", '?');
  }

  /**
   * Whichever branch is taken, the predicate has exactly one placeholder per
   * parameter, provided the column names hold no `?` themselves.
   */
  lemma SearchPlaceholdersMatchParams(names: seq<string>, typs: seq<string>, key: string, isFloat: string -> bool)
    requires |names| == |typs|
    requires forall i :: 0 <= i < |names| ==> '?' !in names[i]
    ensures CountChar(SearchPredicate(names, typs, key, isFloat).sql, '?') == |SearchPredicate(names, typs, key, isFloat).vals|
  {
    var ps := Compile(names, Tokens(key));
    if |ps| > 0 {
      CompileWellFormed(names, Tokens(key));
      FragmentPlaceholders(ps);
    } else {
      LikeScanPlaceholders(names, typs, key, isFloat);
    }
  }
}
