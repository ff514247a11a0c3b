/**
 * The clause matcher of the search compiler: `regc.FindStringSubmatch(token)`
 * with `regc = (\w*)(=|>|<|<>|!=|>=|<=|~|!~|:)(.*)`, unanchored, under Go's
 * leftmost-first semantics. A result of `None` is the source's
 * `len(exp) != 4` case.
 */
module ClauseMatcher {
  import opened Wrappers
  import opened Text

  /** The three submatches `exp[1]`, `exp[2]`, `exp[3]`. */
  datatype Match = Match(name: string, op: string, value: string)

  /** The operators the alternation can actually select. */
  const Selectable: set<string> := {"=", ">", "<", "!=", "~", "!~", ":"}

  /** The alternatives of the operator group, in the order the pattern lists them. */
  const Alternatives: seq<string> := ["=", ">", "<", "<>", "!=", ">=", "<=", "~", "!~", ":"]

  /**
   * The operator group read at position `i` of `t`: the first alternative that
   * matches there wins. `<>`, `>=` and `<=` come after `<` and `>`, whose
   * first characters they share, so they are never selected (see
   * OperatorIsFirstAlternative).
   */
  function Operator(t: string, i: nat): (r: Option<string>)
    requires i <= |t|
    ensures r.Some? ==> i + |r.value| <= |t| && r.value in Selectable
    ensures r.Some? <==> i < |t| && (t[i] == '=' || t[i] == '>' || t[i] == '<' || t[i] == '~' || t[i] == ':'
                                     || (t[i] == '!' && i + 1 < |t| && (t[i + 1] == '=' || t[i + 1] == '~')))
  {
    if i < |t| && t[i] == '=' then Some("=")
    else if i < |t| && t[i] == '>' then Some(">")
    else if i < |t| && t[i] == '<' then Some("<")
    else if i + 1 < |t| && t[i] == '!' && t[i + 1] == '=' then Some("!=")
    else if i < |t| && t[i] == '~' then Some("~")
    else if i + 1 < |t| && t[i] == '!' && t[i + 1] == '~' then Some("!~")
    else if i < |t| && t[i] == ':' then Some(":")
    else None
  }

  /** Alternative `op` matches at position `i` of `t`. */
  predicate Spells(t: string, i: nat, op: string) {
    i + |op| <= |t| && t[i..i + |op|] == op
  }

  /** The alternation read literally: try Alternatives[k..] in order. */
  function FirstAlternative(t: string, i: nat, k: nat): Option<string>
    requires k <= |Alternatives|
    decreases |Alternatives| - k
  {
    if k == |Alternatives| then None
    else if Spells(t, i, Alternatives[k]) then Some(Alternatives[k])
    else FirstAlternative(t, i, k + 1)
  }

  /** Operator is the ordered alternation of the pattern, read literally. */
  lemma OperatorIsFirstAlternative(t: string, i: nat)
    requires i <= |t|
    ensures Operator(t, i) == FirstAlternative(t, i, 0)
  {
    if i < |t| {
      assert Spells(t, i, "=") <==> t[i] == '=';
      assert Spells(t, i, ">") <==> t[i] == '>';
      assert Spells(t, i, "<") <==> t[i] == '<';
      assert Spells(t, i, "~") <==> t[i] == '~';
      assert Spells(t, i, ":") <==> t[i] == ':';
      if i + 1 < |t| {
        assert Spells(t, i, "<>") <==> t[i] == '<' && t[i + 1] == '>';
        assert Spells(t, i, "!=") <==> t[i] == '!' && t[i + 1] == '=';
        assert Spells(t, i, ">=") <==> t[i] == '>' && t[i + 1] == '=';
        assert Spells(t, i, "<=") <==> t[i] == '<' && t[i + 1] == '=';
        assert Spells(t, i, "!~") <==> t[i] == '!' && t[i + 1] == '~';
      }
    }
  }

  /** End of the longest run of `\w` characters starting at `p`. */
  function WordEnd(t: string, p: nat): (w: nat)
    requires p <= |t|
    ensures p <= w <= |t|
    ensures forall i :: p <= i < w ==> IsWordChar(t[i])
    ensures w < |t| ==> !IsWordChar(t[w])
    decreases |t| - p
  {
    if p == |t| || !IsWordChar(t[p]) then p else WordEnd(t, p + 1)
  }

  /** The text up to the first newline: what `(.*)` captures. */
  function TakeLine(s: string): (r: string)
    ensures HasPrefix(s, r) && '\n' !in r
    ensures |r| < |s| ==> s[|r|] == '\n'
    decreases |s|
  {
    if s == [] || s[0] == '\n' then [] else [s[0]] + TakeLine(s[1..])
  }

  /**
   * The match the pattern makes when it starts at `p`, if it makes one there:
   * the greedy `\w*` can only be followed by an operator at its full length
   * (operator characters are not word characters), so one probe suffices.
   */
  function MatchAt(t: string, p: nat): Option<Match>
    requires p <= |t|
  {
    var w := WordEnd(t, p);
    match Operator(t, w)
    case Some(op) => Some(Match(t[p..w], op, TakeLine(t[w + |op|..])))
    case None => None
  }

  /** The leftmost match starting at or after `p`. */
  function MatchFrom(t: string, p: nat): Option<Match>
    requires p <= |t|
    decreases |t| - p
  {
    if p == |t| then None
    else if MatchAt(t, p).Some? then MatchAt(t, p)
    else MatchFrom(t, p + 1)
  }

  /**
   * `regc.FindStringSubmatch(t)`. The matcher fails exactly on tokens in
   * which no operator begins anywhere: those are the tokens the compiler
   * treats as OR markers.
   */
  function MatchClause(t: string): (r: Option<Match>)
    ensures r.None? <==> forall i :: 0 <= i < |t| ==> !OperatorAt(t, i)
  {
    MatchFromNone(t, 0);
    MatchFrom(t, 0)
  }

  /** Whether an operator begins at position `i` of `t`. */
  predicate OperatorAt(t: string, i: nat)
    requires i <= |t|
  {
    Operator(t, i).Some?
  }

  lemma {:induction false} MatchFromNone(t: string, q: nat)
    requires q <= |t|
    ensures MatchFrom(t, q).None? <==> forall i :: q <= i < |t| ==> !OperatorAt(t, i)
    decreases |t| - q
  {
    if q < |t| {
      MatchFromNone(t, q + 1);
      var w := WordEnd(t, q);
      if Operator(t, w).Some? {
        assert OperatorAt(t, w);
      } else if w > q {
        assert IsWordChar(t[q]);
        assert !OperatorAt(t, q);
      }
    }
  }

  lemma {:induction false} MatchFromStart(t: string, q: nat) returns (p: nat)
    requires q <= |t| && MatchFrom(t, q).Some?
    ensures q <= p < |t| && MatchAt(t, p).Some? && MatchFrom(t, q) == MatchAt(t, p)
    ensures forall i :: q <= i < p ==> MatchAt(t, i).None?
    decreases |t| - q
  {
    if MatchAt(t, q).Some? {
      p := q;
    } else {
      p := MatchFromStart(t, q + 1);
    }
  }

  /** A leftmost start is never preceded by a word character. */
  lemma StartIsLeftmost(t: string, p: nat)
    requires 0 < p <= |t| ==> MatchAt(t, p - 1).None?
    requires p <= |t| && MatchAt(t, p).Some?
    ensures p == 0 || !IsWordChar(t[p - 1])
  {
  }

  /** No operator begins at `i` when the probe from `i` found none. */
  lemma NoOperatorBefore(t: string, i: nat)
    requires i <= |t| && MatchAt(t, i).None?
    ensures !OperatorAt(t, i)
  {
    if WordEnd(t, i) > i {
      assert IsWordChar(t[i]);
    }
  }

  /**
   * What a match is made of, as the regular expression reads it: the token is
   * t[..p] + name + op + rest, where the name is the longest run of word
   * characters ending at the first position an operator begins, the operator
   * is the first alternative matching there, and the value is `rest` up to
   * any newline.
   */
  lemma MatchClauseAnatomy(t: string) returns (p: nat, w: nat)
    requires MatchClause(t).Some?
    ensures p <= w < |t| && OperatorAt(t, w)
    ensures var m := MatchClause(t).value;
      && m.name == t[p..w] && m.op == Operator(t, w).value
      && m.value == TakeLine(t[w + |m.op|..]) && m.op in Selectable
    ensures forall i :: p <= i < w ==> IsWordChar(t[i])
    ensures p == 0 || !IsWordChar(t[p - 1])
    ensures forall i :: 0 <= i < w ==> !OperatorAt(t, i)
  {
    p := MatchFromStart(t, 0);
    w := WordEnd(t, p);
    StartIsLeftmost(t, p);
    forall i | 0 <= i < w ensures !OperatorAt(t, i) {
      if i < p {
        NoOperatorBefore(t, i);
      } else {
        assert IsWordChar(t[i]);
      }
    }
  }

  /** Names are runs of word characters, so they never hold a placeholder. */
  lemma MatchedNameIsWord(t: string)
    requires MatchClause(t).Some?
    ensures forall i :: 0 <= i < |MatchClause(t).value.name| ==> IsWordChar(MatchClause(t).value.name[i])
    ensures MatchClause(t).value.op in Selectable
  {
    var p, w := MatchClauseAnatomy(t);
  }

  /** `>=` is read as `>` with a value starting with `=`. */
  lemma GreaterOrEqualIsShadowed()
    ensures MatchClause("age>=18") == Some(Match("age", ">", "=18"))
  {
    var t := "age>=18";
    assert WordEnd(t, 3) == 3;
    assert WordEnd(t, 0) == 3;
    assert Operator(t, 3) == Some(">");
    assert t[0..3] == "age" && t[4..] == "=18";
    assert TakeLine("") == "";
    assert TakeLine("8") == "8";
    assert TakeLine("18") == "18";
    assert TakeLine("=18") == "=18";
  }

  /** A value without a newline is captured whole. */
  lemma TakeWholeLine(s: string)
    requires '\n' !in s
    ensures TakeLine(s) == s
  {
  }

  /** A clause written `name op value` with a one-character operator reads back as those three parts. */
  lemma SingleCharClause(name: string, op: string, value: string)
    requires forall i :: 0 <= i < |name| ==> IsWordChar(name[i])
    requires op in {"=", ">", "<", "~", ":"}
    requires '\n' !in value
    ensures MatchClause(name + op + value) == Some(Match(name, op, value))
  {
    var t := name + op + value;
    var w := WordEnd(t, 0);
    assert t[|name|] == op[0];
    assert w == |name|;
    assert Operator(t, w) == Some(op);
    assert t[w + 1..] == value;
    TakeWholeLine(value);
    assert t[0..w] == name;
  }
}
