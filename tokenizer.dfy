/**
 * The token splitter of the search compiler: `regs.FindAllString(key, -1)` with
 * `regs = (\S+\'.*\'|\S+)`, under Go's leftmost-first regexp semantics.
 *
 * A match can only start on a non-space character, so every token starts at the
 * first non-space character after the previous token. There the first
 * alternative is tried before the second; inside it `\S+` prefers the longest
 * run and `.*` (which never crosses a newline) the longest tail. The chosen
 * first alternative is therefore the one with the LAST usable quote inside the
 * non-space run, closed by the LAST quote on that line.
 */
module Tokenizer {
  import opened Wrappers
  import opened Text

  /** First position at or after `i` holding a non-space character, or |s|. */
  function SkipSpace(s: string, i: nat): (p: nat)
    requires i <= |s|
    ensures i <= p <= |s|
    ensures forall j :: i <= j < p ==> IsSpace(s[j])
    ensures p < |s| ==> !IsSpace(s[p])
    decreases |s| - i
  {
    if i == |s| || !IsSpace(s[i]) then i else SkipSpace(s, i + 1)
  }

  /** End of the longest run of non-space characters starting at `p` (`\S+`, greedy). */
  function RunEnd(s: string, p: nat): (e: nat)
    requires p <= |s|
    ensures p <= e <= |s|
    ensures forall j :: p <= j < e ==> !IsSpace(s[j])
    ensures e < |s| ==> IsSpace(s[e])
    decreases |s| - p
  {
    if p == |s| || IsSpace(s[p]) then p else RunEnd(s, p + 1)
  }

  /** First newline at or after `i`, or |s|: the farthest `.*` can reach from `i`. */
  function LineEnd(s: string, i: nat): (e: nat)
    requires i <= |s|
    ensures i <= e <= |s|
    ensures forall j :: i <= j < e ==> s[j] != '\n'
    ensures e < |s| ==> s[e] == '\n'
    decreases |s| - i
  {
    if i == |s| || s[i] == '\n' then i else LineEnd(s, i + 1)
  }

  /** The last quote in s[lo..hi), if there is one. */
  function LastQuote(s: string, lo: nat, hi: nat): (r: Option<nat>)
    requires lo <= hi <= |s|
    ensures r.Some? ==> lo <= r.value < hi && s[r.value] == '\''
    ensures r.Some? ==> forall j :: r.value < j < hi ==> s[j] != '\''
    ensures r.None? ==> forall j :: lo <= j < hi ==> s[j] != '\''
    decreases hi - lo
  {
    if lo == hi then None
    else if s[hi - 1] == '\'' then Some(hi - 1)
    else LastQuote(s, lo, hi - 1)
  }

  /**
   * The first alternative `\S+'.*'` read at `p`: the `\S+` part is s[p..k), the
   * opening quote is at k, the `.*` part is s[k+1..m) and the closing quote at m.
   */
  predicate QuotedAt(s: string, p: nat, k: nat, m: nat) {
    && p < k < m < |s|
    && (forall i :: p <= i < k ==> !IsSpace(s[i]))
    && s[k] == '\'' && s[m] == '\''
    && (forall i :: k < i < m ==> s[i] != '\n')
  }

  /**
   * Backtracking over the first alternative: opening quotes are tried from
   * position `hi - 1` down to `p + 1` (the longest `\S+` first), and for each
   * one the last closing quote on its line (the longest `.*`).
   */
  function QuotedSearch(s: string, p: nat, hi: nat): (r: Option<(nat, nat)>)
    requires p <= |s| && p < hi <= RunEnd(s, p)
    ensures r.Some? ==> r.value.0 < hi && QuotedAt(s, p, r.value.0, r.value.1)
    ensures r.Some? ==> forall k: nat, m: nat :: k < hi && QuotedAt(s, p, k, m) ==>
                          k < r.value.0 || (k == r.value.0 && m <= r.value.1)
    ensures r.None? ==> forall k: nat, m: nat :: k < hi ==> !QuotedAt(s, p, k, m)
    decreases hi
  {
    if hi == p + 1 then None
    else
      var k := hi - 1;
      var close := if s[k] == '\'' then LastQuote(s, k + 1, LineEnd(s, k + 1)) else None;
      if close.Some? then Some((k, close.value)) else QuotedSearch(s, p, k)
  }

  /** End (exclusive) of the token that starts at the non-space position `p`. */
  function TokenEnd(s: string, p: nat): (e: nat)
    requires p < |s| && !IsSpace(s[p])
    ensures p < e <= |s|
  {
    match QuotedSearch(s, p, RunEnd(s, p))
    case Some((k, m)) => m + 1
    case None => RunEnd(s, p)
  }

  /** The tokens found at or after position `i`. */
  function TokensFrom(s: string, i: nat): seq<string>
    requires i <= |s|
    decreases |s| - i
  {
    var p := SkipSpace(s, i);
    if p == |s| then [] else [s[p..TokenEnd(s, p)]] + TokensFrom(s, TokenEnd(s, p))
  }

  /**
   * `regs.FindAllString(s, -1)`: non-empty tokens starting on a non-space,
   * never crossing a line, and holding a space only when they hold a quote.
   */
  function Tokens(s: string): (ts: seq<string>)
    ensures forall t :: t in ts ==>
      && |t| > 0 && !IsSpace(t[0])
      && '\n' !in t
      && ('\'' !in t ==> forall j :: 0 <= j < |t| ==> !IsSpace(t[j]))
  {
    TokensFromShape(s, 0);
    TokensFrom(s, 0)
  }

  /** The text with every `\s` character removed. */
  function Squeeze(s: string): string {
    if s == [] then [] else (if IsSpace(s[0]) then [] else [s[0]]) + Squeeze(s[1..])
  }

  function Concat(ts: seq<string>): string {
    if ts == [] then [] else ts[0] + Concat(ts[1..])
  }

  lemma {:induction false} SqueezeAppend(a: string, b: string)
    ensures Squeeze(a + b) == Squeeze(a) + Squeeze(b)
    decreases |a|
  {
    if a == [] {
      assert a + b == b;
    } else {
      assert (a + b)[0] == a[0] && (a + b)[1..] == a[1..] + b;
      SqueezeAppend(a[1..], b);
    }
  }

  lemma {:induction false} SqueezeBlank(a: string)
    requires forall j :: 0 <= j < |a| ==> IsSpace(a[j])
    ensures Squeeze(a) == []
    decreases |a|
  {
    if a != [] {
      SqueezeBlank(a[1..]);
    }
  }

  /** Squeezing the token at `p` and everything after it. */
  lemma SqueezeTokenStep(s: string, p: nat, e: nat, rest: string)
    requires p <= e <= |s|
    requires Squeeze(rest) == Squeeze(s[e..])
    ensures Squeeze(s[p..e] + rest) == Squeeze(s[p..])
  {
    SqueezeAppend(s[p..e], rest);
    SqueezeAppend(s[p..e], s[e..]);
    assert s[p..] == s[p..e] + s[e..];
  }

  lemma {:induction false} TokensFromLoseOnlySpace(s: string, i: nat)
    requires i <= |s|
    ensures Squeeze(Concat(TokensFrom(s, i))) == Squeeze(s[i..])
    decreases |s| - i
  {
    var p := SkipSpace(s, i);
    assert s[i..] == s[i..p] + s[p..];
    SqueezeAppend(s[i..p], s[p..]);
    SqueezeBlank(s[i..p]);
    if p < |s| {
      var e := TokenEnd(s, p);
      var rest := TokensFrom(s, e);
      assert TokensFrom(s, i) == [s[p..e]] + rest;
      assert ([s[p..e]] + rest)[1..] == rest;
      TokensFromLoseOnlySpace(s, e);
      SqueezeTokenStep(s, p, e, Concat(rest));
    }
  }

  /** Splitting into tokens drops whitespace and nothing else. */
  lemma TokensLoseOnlySpace(s: string)
    ensures Squeeze(Concat(Tokens(s))) == Squeeze(s)
  {
    TokensFromLoseOnlySpace(s, 0);
    assert s[0..] == s;
  }

  /**
   * Every token is non-empty and starts with a non-space character; a token
   * without a quote is a run of non-space characters (only quoting lets a
   * token swallow spaces), and no token crosses a newline.
   */
  lemma {:induction false} TokensFromShape(s: string, i: nat)
    requires i <= |s|
    ensures forall t :: t in TokensFrom(s, i) ==>
      && |t| > 0 && !IsSpace(t[0])
      && '\n' !in t
      && ('\'' !in t ==> forall j :: 0 <= j < |t| ==> !IsSpace(t[j]))
    decreases |s| - i
  {
    var p := SkipSpace(s, i);
    if p < |s| {
      var e := TokenEnd(s, p);
      TokensFromShape(s, e);
      var t := s[p..e];
      match QuotedSearch(s, p, RunEnd(s, p))
      case Some((k, m)) =>
        assert t[k - p] == '\'';
        forall j | 0 <= j < |t| ensures t[j] != '\n' {
          if p + j < k { assert !IsSpace(s[p + j]); } else if k < p + j < m { } else { assert s[p + j] == '\''; }
        }
      case None =>
        assert forall j :: 0 <= j < |t| ==> !IsSpace(t[j]);
    }
  }

  /**
   * The token end is the one Go's leftmost-first matcher picks: the
   * highest-priority reading of `\S+'.*'` when there is one (latest opening
   * quote, then latest closing quote), else the whole non-space run.
   */
  lemma TokenEndFollowsRegex(s: string, p: nat)
    requires p < |s| && !IsSpace(s[p])
    ensures (forall k: nat, m: nat :: !QuotedAt(s, p, k, m)) ==> TokenEnd(s, p) == RunEnd(s, p)
    ensures (exists k: nat, m: nat :: QuotedAt(s, p, k, m)) ==>
      exists k: nat, m: nat :: m + 1 == TokenEnd(s, p) && QuotedAt(s, p, k, m) &&
        forall k': nat, m': nat :: QuotedAt(s, p, k', m') ==> k' < k || (k' == k && m' <= m)
  {
    var e := RunEnd(s, p);
    forall k: nat, m: nat | QuotedAt(s, p, k, m) ensures k < e {
      assert !IsSpace(s[k]);
    }
    match QuotedSearch(s, p, e)
    case Some((k, m)) =>
      assert m + 1 == TokenEnd(s, p) && QuotedAt(s, p, k, m);
    case None =>
  }

  /** A quoted value keeps its quotes and the spaces inside them. */
  lemma QuotedValueExample()
    ensures Tokens("a='x y' b") == ["a='x y'", "b"]
  {
    var s := "a='x y' b";
    assert SkipSpace(s, 0) == 0;
    assert RunEnd(s, 0) == 4;
    assert LineEnd(s, 3) == 9;
    assert LastQuote(s, 3, 9) == Some(6);
    assert QuotedSearch(s, 0, 4) == Some((2, 6));
    assert TokenEnd(s, 0) == 7;
    assert SkipSpace(s, 7) == 8;
    assert RunEnd(s, 8) == 9;
    assert QuotedSearch(s, 8, 9) == None;
    assert TokenEnd(s, 8) == 9;
    assert SkipSpace(s, 9) == 9;
    assert TokensFrom(s, 9) == [];
    assert TokensFrom(s, 7) == [s[8..9]] + TokensFrom(s, 9);
    assert TokensFrom(s, 0) == [s[0..7]] + TokensFrom(s, 7);
    assert s[0..7] == "a='x y'" && s[8..9] == "b";
  }

  /** A text of non-space characters without a quote is a single token. */
  lemma WordIsOneToken(s: string)
    requires |s| > 0 && '\'' !in s
    requires forall j :: 0 <= j < |s| ==> !IsSpace(s[j])
    ensures Tokens(s) == [s]
  {
    assert SkipSpace(s, 0) == 0;
    assert RunEnd(s, 0) == |s|;
    assert QuotedSearch(s, 0, |s|).None?;
    assert TokensFrom(s, |s|) == [];
    assert s[0..|s|] == s;
  }
}
