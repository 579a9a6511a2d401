/** Substitution in templates. */
module VelTemplate {
  // Variable substitution in SQL templates (src/vel.rs, `resolve_vars`). A template is read as
  // plain characters and whole `$identifier` references; the loop replaces exactly the bound ones.

  import opened Common
  import opened TextSearch

  datatype Token = Plain(c: char) | Reference(name: string)

  predicate IsName(n: string) {
    n != "" && IsNameStart(n[0]) && forall k :: 0 <= k < |n| ==> IsIdent(n[k])
  }

  function Text(t: Token): string {
    match t
    case Plain(c) => [c]
    case Reference(name) => "$" + name
  }

  function Flatten(ts: seq<Token>): string {
    if ts == [] then "" else Text(ts[0]) + Flatten(ts[1..])
  }

  /** Whether `u` may directly follow `t`: a reference takes its whole identifier, and no reference is left unread. */
  predicate MayFollow(t: Token, u: Token) {
    u.Plain? ==>
      && (t.Reference? ==> !IsIdent(u.c))
      && (t == Plain('$') ==> !IsNameStart(u.c))
  }

  /** The independent description of a reading: names are names, and every reference is maximal. */
  predicate Maximal(ts: seq<Token>) {
    && (forall k :: 0 <= k < |ts| && ts[k].Reference? ==> IsName(ts[k].name))
    && (forall k :: 0 <= k < |ts| - 1 ==> MayFollow(ts[k], ts[k + 1]))
  }

  /** The end of the run of identifier characters starting at `i`. */
  function IdentEnd(s: string, i: nat): (r: nat)
    requires i <= |s|
    ensures i <= r <= |s|
    ensures r < |s| ==> !IsIdent(s[r])
    decreases |s| - i
  {
    if i < |s| && IsIdent(s[i]) then IdentEnd(s, i + 1) else i
  }

  lemma {:induction false} IdentEndSkips(s: string, i: nat)
    requires i <= |s|
    ensures forall k :: i <= k < IdentEnd(s, i) ==> IsIdent(s[k])
    decreases |s| - i
  {
    if i < |s| && IsIdent(s[i]) {
      IdentEndSkips(s, i + 1);
    }
  }

  lemma {:induction false} IdentEndIs(s: string, i: nat, e: nat)
    requires i <= e <= |s|
    requires forall k :: i <= k < e ==> IsIdent(s[k])
    requires e < |s| ==> !IsIdent(s[e])
    ensures IdentEnd(s, i) == e
    decreases e - i
  {
    if i < e {
      IdentEndIs(s, i + 1, e);
    }
  }

  /** A `$` that starts a name. */
  predicate StartsReference(s: string, i: nat) {
    i + 1 < |s| && s[i] == '$' && IsNameStart(s[i + 1])
  }

  /** The first token of a non-empty text. */
  function TokenAt(s: string, i: nat): Token
    requires i < |s|
  {
    if StartsReference(s, i) then Reference(s[i + 1..IdentEnd(s, i + 1)]) else Plain(s[i])
  }

  function TokenEnd(s: string, i: nat): (r: nat)
    requires i < |s|
    ensures i < r <= |s|
  {
    if StartsReference(s, i) then IdentEnd(s, i + 1) else i + 1
  }

  /** The reading of the text from `i` on. */
  function TokensFrom(s: string, i: nat): seq<Token>
    requires i <= |s|
    decreases |s| - i
  {
    if i == |s| then [] else [TokenAt(s, i)] + TokensFrom(s, TokenEnd(s, i))
  }

  function Tokens(s: string): seq<Token> {
    TokensFrom(s, 0)
  }

  /** What a token stands for once the variables are known. */
  function Meaning(t: Token, bound: map<string, string>): string {
    if t.Reference? && t.name in bound then bound[t.name] else Text(t)
  }

  function Substituted(ts: seq<Token>, bound: map<string, string>): string {
    if ts == [] then "" else Meaning(ts[0], bound) + Substituted(ts[1..], bound)
  }

  /** Putting a token in front of a reading of `s[n..]`. */
  lemma FlattenStep(s: string, i: nat, n: nat, t: Token, ts: seq<Token>)
    requires i <= n <= |s|
    requires Text(t) == s[i..n] && Flatten(ts) == s[n..]
    ensures Flatten([t] + ts) == s[i..]
  {
    assert ([t] + ts)[1..] == ts;
    assert s[i..n] + s[n..] == s[i..];
  }

  lemma SubstitutedStep(t: Token, ts: seq<Token>, bound: map<string, string>)
    ensures Substituted([t] + ts, bound) == Meaning(t, bound) + Substituted(ts, bound)
  {
    assert ([t] + ts)[1..] == ts;
  }

  lemma MaximalStep(t: Token, ts: seq<Token>)
    requires Maximal(ts)
    requires t.Reference? ==> IsName(t.name)
    requires ts != [] ==> MayFollow(t, ts[0])
    ensures Maximal([t] + ts)
  {
    forall k | 0 <= k < |ts| ensures MayFollow(([t] + ts)[k], ([t] + ts)[k + 1]) {
      if 0 < k {
        assert MayFollow(ts[k - 1], ts[k]);
      }
    }
  }

  lemma TokenText(s: string, i: nat)
    requires i < |s|
    ensures Text(TokenAt(s, i)) == s[i..TokenEnd(s, i)]
  {
  }

  lemma TokenName(s: string, i: nat)
    requires i < |s| && StartsReference(s, i)
    ensures IsName(TokenAt(s, i).name)
  {
    IdentEndSkips(s, i + 1);
    assert IdentEnd(s, i + 1) == IdentEnd(s, i + 2);
  }

  /** The reading covers the text. */
  lemma {:induction false} TokensCover(s: string, i: nat)
    requires i <= |s|
    ensures Flatten(TokensFrom(s, i)) == s[i..]
    decreases |s| - i
  {
    if i < |s| {
      var n := TokenEnd(s, i);
      TokenText(s, i);
      TokensCover(s, n);
      FlattenStep(s, i, n, TokenAt(s, i), TokensFrom(s, n));
    }
  }

  lemma FollowsAt(s: string, i: nat)
    requires i < |s| && TokenEnd(s, i) < |s|
    ensures MayFollow(TokenAt(s, i), TokenAt(s, TokenEnd(s, i)))
  {
  }

  /** Every reference read is a maximal `$identifier`, and none is missed. */
  lemma {:induction false} TokensMaximal(s: string, i: nat)
    requires i <= |s|
    ensures Maximal(TokensFrom(s, i))
    decreases |s| - i
  {
    if i < |s| {
      var n := TokenEnd(s, i);
      TokensMaximal(s, n);
      if StartsReference(s, i) {
        TokenName(s, i);
      }
      if n < |s| {
        FollowsAt(s, i);
      }
      MaximalStep(TokenAt(s, i), TokensFrom(s, n));
    }
  }

  lemma MaximalTail(ts: seq<Token>)
    requires Maximal(ts) && ts != []
    ensures Maximal(ts[1..])
  {
    forall k | 0 <= k < |ts[1..]| - 1 ensures MayFollow(ts[1..][k], ts[1..][k + 1]) {
      assert MayFollow(ts[k + 1], ts[k + 2]);
    }
  }

  lemma FirstCharacter(ts: seq<Token>)
    ensures ts == [] ==> Flatten(ts) == ""
    ensures ts != [] ==> Flatten(ts) != "" && Flatten(ts)[0] == (if ts[0].Plain? then ts[0].c else '$')
  {
  }

  lemma SplitAt(s: string, i: nat, a: string, b: string) returns (n: nat)
    requires i <= |s| && a + b == s[i..]
    ensures n == i + |a| <= |s| && s[i..n] == a && s[n..] == b
  {
    n := i + |a|;
    assert |a + b| == |s| - i;
    assert (a + b)[..|a|] == a && (a + b)[|a|..] == b;
    assert s[i..][..|a|] == s[i..n] && s[i..][|a|..] == s[n..];
  }

  lemma NameSpan(s: string, i: nat, n: nat, name: string)
    requires i < n <= |s| && s[i..n] == "$" + name && IsName(name)
    requires n < |s| ==> !IsIdent(s[n])
    ensures StartsReference(s, i) && IdentEnd(s, i + 1) == n && s[i + 1..n] == name
  {
    assert s[i..n][0] == s[i] == '$';
    assert s[i + 1..n] == s[i..n][1..] == name;
    forall k | i + 1 <= k < n ensures s[k] == name[k - i - 1] {
      assert s[i + 1..n][k - i - 1] == s[k];
    }
    IdentEndIs(s, i + 1, n);
  }

  /** A maximal reading's first token is the one the scan reads. */
  lemma FirstToken(s: string, i: nat, ts: seq<Token>)
    requires i <= |s|
    requires Maximal(ts) && ts != [] && Flatten(ts) == s[i..]
    ensures i < |s| && ts[0] == TokenAt(s, i) && Flatten(ts[1..]) == s[TokenEnd(s, i)..]
  {
    var n := SplitAt(s, i, Text(ts[0]), Flatten(ts[1..]));
    FirstCharacter(ts[1..]);
    if 1 < |ts| {
      assert MayFollow(ts[0], ts[1]);
      assert s[n..][0] == s[n];
    }
    if ts[0].Plain? {
      assert s[i..n][0] == s[i];
    } else {
      NameSpan(s, i, n, ts[0].name);
    }
  }

  /** There is only one such reading. */
  lemma {:induction false} TokensUnique(s: string, i: nat, ts: seq<Token>)
    requires i <= |s|
    requires Maximal(ts) && Flatten(ts) == s[i..]
    ensures TokensFrom(s, i) == ts
    decreases |ts|
  {
    FirstCharacter(ts);
    if ts != [] {
      FirstToken(s, i, ts);
      MaximalTail(ts);
      TokensUnique(s, TokenEnd(s, i), ts[1..]);
      assert ts == [ts[0]] + ts[1..];
    }
  }

  /** When every variable that occurs is bound to its own `$name`, nothing changes. */
  lemma {:induction false} OwnNamesChangeNothing(s: string, bound: map<string, string>)
    requires forall n :: n in bound ==> bound[n] == "$" + n || Reference(n) !in Tokens(s)
    ensures Substituted(Tokens(s), bound) == s
  {
    MeaningIsText(Tokens(s), bound);
    TokensCover(s, 0);
  }

  lemma {:induction false} MeaningIsText(ts: seq<Token>, bound: map<string, string>)
    requires forall n :: n in bound ==> bound[n] == "$" + n || Reference(n) !in ts
    ensures Substituted(ts, bound) == Flatten(ts)
  {
    if ts != [] {
      assert ts[0] in ts;
      forall n | n in bound ensures bound[n] == "$" + n || Reference(n) !in ts[1..] {
      }
      MeaningIsText(ts[1..], bound);
    }
  }

  /** What the template from `i` on becomes. */
  function Rest(s: string, i: nat, bound: map<string, string>): string
    requires i <= |s|
  {
    Substituted(TokensFrom(s, i), bound)
  }

  /** Extending what was written by one token. */
  lemma RestStep(s: string, i: nat, bound: map<string, string>, out: string)
    requires i < |s|
    ensures out + Rest(s, i, bound) == out + Meaning(TokenAt(s, i), bound) + Rest(s, TokenEnd(s, i), bound)
  {
    var t, ts := TokenAt(s, i), TokensFrom(s, TokenEnd(s, i));
    SubstitutedStep(t, ts, bound);
    Regroup(out, Meaning(t, bound), Substituted(ts, bound));
  }

  lemma Regroup(a: string, b: string, c: string)
    ensures a + (b + c) == a + b + c
  {
  }

  /** Text before the first `$` is copied. */
  lemma {:induction false} CopiedRun(s: string, i: nat, n: nat, bound: map<string, string>, out: string)
    requires i <= n <= |s|
    requires forall k :: i <= k < n ==> s[k] != '$'
    ensures out + Rest(s, i, bound) == out + s[i..n] + Rest(s, n, bound)
    decreases n - i
  {
    if i == n {
      assert s[i..n] == "";
      assert out + "" == out;
    } else {
      RestStep(s, i, bound, out);
      CopiedRun(s, i + 1, n, bound, out + [s[i]]);
      CopyOne(s, i, n, out);
    }
  }

  lemma CopyOne(s: string, i: nat, n: nat, out: string)
    requires i < n <= |s|
    ensures out + [s[i]] + s[i + 1..n] == out + s[i..n]
  {
    assert s[i..n] == [s[i]] + s[i + 1..n];
  }

  /** The bindings as the program collects them: a later pair wins. */
  function Bindings(vars: seq<(string, string)>): map<string, string> {
    if vars == [] then map[]
    else Bindings(vars[..|vars| - 1])[vars[|vars| - 1].0 := vars[|vars| - 1].1]
  }

  /** The last of the bindings of a name. */
  predicate LastBound(vars: seq<(string, string)>, n: string, k: nat) {
    k < |vars| && vars[k].0 == n && forall j :: k < j < |vars| ==> vars[j].0 != n
  }

  /** A name stands for what it was bound to last. */
  lemma {:induction false} LastBindingWins(vars: seq<(string, string)>, n: string)
    ensures n in Bindings(vars) <==> exists k :: 0 <= k < |vars| && vars[k].0 == n
    ensures forall k: nat :: LastBound(vars, n, k) ==> n in Bindings(vars) && Bindings(vars)[n] == vars[k].1
    decreases |vars|
  {
    if vars != [] {
      var front, last := vars[..|vars| - 1], vars[|vars| - 1];
      assert vars == front + [last];
      LastBindingWins(front, n);
      forall k: nat | LastBound(vars, n, k)
        ensures n in Bindings(vars) && Bindings(vars)[n] == vars[k].1
      {
        if k < |front| {
          assert vars[|front|].0 != n;
          assert LastBound(front, n, k);
        }
      }
    }
  }

  /** The loop's body from a `$` on: a bare `$` is kept, a whole identifier is looked up. */
  method TakeDollar(sql: string, pos: nat, bound: map<string, string>, out: string) returns (out': string, i: nat)
    requires pos < |sql| && sql[pos] == '$'
    ensures i == TokenEnd(sql, pos) && out' == out + Meaning(TokenAt(sql, pos), bound)
  {
    i := pos + 1;
    if i == |sql| || !IsNameStart(sql[i]) {
      return out + "$", i;
    }
    var end := IdentEnd(sql, i);
    var ident := sql[i..end];
    i := end;
    if ident in bound {
      return out + bound[ident], i;
    }
    Regroup(out, "$", ident);
    out' := out + "$";
    out' := out' + ident;
  }

  /** The loop's `rest` is the part of the template not yet read: here it is the text from `i` on. */
  method ResolveVars(sql: string, vars: seq<(string, string)>) returns (out: string)
    ensures out == Substituted(Tokens(sql), Bindings(vars))
  {
    if vars == [] {
      OwnNamesChangeNothing(sql, map[]);
      return sql;
    }
    var bound := Bindings(vars);
    out := "";
    var i := 0;
    ghost var whole := Rest(sql, 0, bound);
    StartEmpty(whole);
    while Find(sql, '$', i) < |sql|
      invariant i <= |sql|
      invariant out + Rest(sql, i, bound) == whole
      decreases |sql| - i
    {
      var pos := Find(sql, '$', i);
      FindSkips(sql, '$', i);
      CopiedRun(sql, i, pos, bound, out);
      out := out + sql[i..pos];
      RestStep(sql, pos, bound, out);
      out, i := TakeDollar(sql, pos, bound, out);
    }
    FindSkips(sql, '$', i);
    CopiedRun(sql, i, |sql|, bound, out);
    out := out + sql[i..];
    assert out + "" == out;
  }

  lemma StartEmpty(s: string)
    ensures "" + s == s
  {
  }
}
