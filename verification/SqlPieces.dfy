/**
 The token specification behind both placeholder rewriters: a statement is a sequence of
 pieces, each an opaque region (quoted text, comment, dollar-quoted text), a cast `::`, a
 named parameter, or one plain byte of code.
 */
module SqlPieces {
  import opened Common

  datatype Piece =
    | Opaque(text: string)
    | Cast
    | Param(name: string) // with its leading colon
    | Plain(c: char)

  function Source(p: Piece): string {
    match p
    case Opaque(text) => text
    case Cast => "::"
    case Param(name) => name
    case Plain(c) => [c]
  }

  // ------------------------------------------------------------- region lengths

  /** The position past the first `quote` at or after `j`, or the end of `s`. */
  function QuoteEnd(s: string, j: nat, quote: char): (e: nat)
    requires j <= |s|
    ensures j <= e <= |s|
    decreases |s| - j
  {
    if j == |s| then j else if s[j] == quote then j + 1 else QuoteEnd(s, j + 1, quote)
  }

  /** The position past the first star-slash at or after `j`, or the end of `s`. */
  function BlockEnd(s: string, j: nat): (e: nat)
    requires j <= |s|
    ensures j <= e <= |s|
    decreases |s| - j
  {
    if j + 1 >= |s| then |s| else if s[j] == '*' && s[j + 1] == '/' then j + 2 else BlockEnd(s, j + 1)
  }

  /** The end of the longest run of name characters that starts at `j`. */
  function NameEnd(s: string, j: nat): (e: nat)
    requires j <= |s|
    ensures j <= e <= |s|
    ensures forall k :: j <= k < e ==> IsIdent(s[k])
    ensures e < |s| ==> !IsIdent(s[e])
    decreases |s| - j
  {
    if j == |s| || !IsIdent(s[j]) then j else NameEnd(s, j + 1)
  }

  predicate HasAt(s: string, j: nat, tag: string) {
    j + |tag| <= |s| && s[j..j + |tag|] == tag
  }

  /** The position past the first `tag` at or after `j`, or the end of `s`. */
  function TagEnd(s: string, j: nat, tag: string): (e: nat)
    requires j <= |s|
    ensures j <= e <= |s|
    decreases |s| - j
  {
    if j == |s| then j else if HasAt(s, j, tag) then j + |tag| else TagEnd(s, j + 1, tag)
  }

  lemma {:induction false} QuoteEndShift(s: string, o: nat, j: nat, quote: char)
    requires o + j <= |s|
    ensures QuoteEnd(s, o + j, quote) == o + QuoteEnd(s[o..], j, quote)
    decreases |s| - j
  {
    if o + j < |s| && s[o + j] != quote {
      QuoteEndShift(s, o, j + 1, quote);
    }
  }

  lemma {:induction false} BlockEndShift(s: string, o: nat, j: nat)
    requires o + j <= |s|
    ensures BlockEnd(s, o + j) == o + BlockEnd(s[o..], j)
    decreases |s| - j
  {
    if o + j + 1 < |s| {
      BlockEndShift(s, o, j + 1);
    }
  }

  lemma {:induction false} NameEndShift(s: string, o: nat, j: nat)
    requires o + j <= |s|
    ensures NameEnd(s, o + j) == o + NameEnd(s[o..], j)
    decreases |s| - j
  {
    if o + j < |s| && IsIdent(s[o + j]) {
      NameEndShift(s, o, j + 1);
    }
  }

  lemma {:induction false} TagEndShift(s: string, o: nat, j: nat, tag: string)
    requires o + j <= |s|
    ensures TagEnd(s, o + j, tag) == o + TagEnd(s[o..], j, tag)
    decreases |s| - j
  {
    var r := s[o..];
    if o + j < |s| {
      if j + |tag| <= |r| {
        assert r[j..j + |tag|] == s[o + j..o + j + |tag|];
      }
      if !HasAt(s, o + j, tag) {
        TagEndShift(s, o, j + 1, tag);
      }
    }
  }

  /**
   The length of the dollar-quote tag that `s` starts with: `$$` or `$name$` (section 4.1.2.4 of the
   PostgreSQL manual).
   */
  function TagLength(s: string): (r: Option<nat>)
    ensures r.Some? ==> 2 <= r.value <= |s|
  {
    if s == "" || s[0] != '$' then None
    else
      var e := NameEnd(s, 1);
      if e < |s| && s[e] == '$' && (e == 1 || IsNameStart(s[1])) then Some(e + 1) else None
  }

  // --------------------------------------------------------------------- pieces

  predicate Starts(s: string, a: char, b: char) {
    2 <= |s| && s[0] == a && s[1] == b
  }

  /** The piece that a non-empty statement starts with. */
  function Head(s: string): (p: Piece)
    requires s != ""
    ensures 0 < |Source(p)| <= |s|
  {
    if s[0] == '\'' || s[0] == '"' then Opaque(s[..QuoteEnd(s, 1, s[0])])
    else if Starts(s, '-', '-') then Opaque(s[..QuoteEnd(s, 2, '\n')])
    else if Starts(s, '/', '*') then Opaque(s[..BlockEnd(s, 2)])
    else if TagLength(s).Some? then Opaque(s[..TagEnd(s, TagLength(s).value, s[..TagLength(s).value])])
    else if Starts(s, ':', ':') then Cast
    else if s[0] == ':' && 2 <= |s| && IsNameStart(s[1]) then Param(s[..NameEnd(s, 1)])
    else Plain(s[0])
  }

  function Pieces(s: string): seq<Piece> {
    if s == "" then [] else [Head(s)] + Pieces(s[|Source(Head(s))|..])
  }

  function Flatten(ps: seq<Piece>): string {
    if ps == [] then "" else Source(ps[0]) + Flatten(ps[1..])
  }

  /** The names of the parameters, in order of occurrence. */
  function Names(ps: seq<Piece>): seq<string> {
    if ps == [] then []
    else (if ps[0].Param? then [ps[0].name] else []) + Names(ps[1..])
  }

  lemma PiecesUnfold(s: string, p: Piece, rest: string)
    requires s != "" && Head(s) == p && s[|Source(p)|..] == rest
    ensures Pieces(s) == [p] + Pieces(rest)
  {
  }

  lemma HeadIsPrefix(s: string)
    requires s != ""
    ensures s == Source(Head(s)) + s[|Source(Head(s))|..]
  {
  }

  /** The pieces put back together are the statement. */
  lemma {:induction false} PiecesCover(s: string)
    ensures Flatten(Pieces(s)) == s
    decreases |s|
  {
    if s != "" {
      HeadIsPrefix(s);
      PiecesCover(s[|Source(Head(s))|..]);
    }
  }

  lemma {:induction false} NamesConcat(a: seq<Piece>, b: seq<Piece>)
    ensures Names(a + b) == Names(a) + Names(b)
    decreases |a|
  {
    if a == [] {
      assert a + b == b;
    } else {
      NamesConcat(a[1..], b);
      assert (a + b)[1..] == a[1..] + b;
    }
  }

  // ------------------------------------------------------------------ rendering

  function RenderPiece(p: Piece, placeholder: string -> string): string {
    if p.Param? then placeholder(p.name) else Source(p)
  }

  /** The rewritten text: every piece verbatim except parameters, which become placeholders. */
  function Render(ps: seq<Piece>, placeholder: string -> string): string {
    if ps == [] then "" else RenderPiece(ps[0], placeholder) + Render(ps[1..], placeholder)
  }

  lemma {:induction false} RenderConcat(a: seq<Piece>, b: seq<Piece>, f: string -> string)
    ensures Render(a + b, f) == Render(a, f) + Render(b, f)
    decreases |a|
  {
    if a == [] {
      assert a + b == b;
    } else {
      RenderConcat(a[1..], b, f);
      assert (a + b)[1..] == a[1..] + b;
      Regroup(RenderPiece(a[0], f), Render(a[1..], f), Render(b, f));
    }
  }

  lemma Regroup(a: string, b: string, c: string)
    ensures a + (b + c) == a + b + c
  {
  }

  /** Rendering looks only at the names that occur. */
  lemma {:induction false} RenderSame(ps: seq<Piece>, f: string -> string, g: string -> string)
    requires forall n :: n in Names(ps) ==> f(n) == g(n)
    ensures Render(ps, f) == Render(ps, g)
    decreases |ps|
  {
    if ps != [] {
      assert forall n :: n in Names(ps[1..]) ==> n in Names(ps);
      RenderSame(ps[1..], f, g);
    }
  }

  /** Without parameters the rendering is the text itself. */
  lemma {:induction false} RenderOpaque(ps: seq<Piece>, f: string -> string)
    requires Names(ps) == []
    ensures Render(ps, f) == Flatten(ps)
    decreases |ps|
  {
    if ps != [] {
      RenderOpaque(ps[1..], f);
    }
  }

  // ---------------------------------------------------------- names to bindings

  datatype Field<V> = Field(name: string, value: V)

  /** Parameter names are compared with their leading colon. */
  function Normalize(name: string): (r: string)
    ensures r != "" && r[0] == ':'
  {
    if name != "" && name[0] == ':' then name else ":" + name
  }

  /** The field each normalised name is bound to; a later field replaces an earlier one. */
  function ByName<V>(params: seq<Field<V>>): map<string, Field<V>> {
    if params == [] then map[]
    else ByName(params[..|params| - 1])[Normalize(params[|params| - 1].name) := params[|params| - 1]]
  }

  /** Every one of the names is given a field. */
  predicate AllBound<V>(names: seq<string>, env: map<string, Field<V>>) {
    forall k :: 0 <= k < |names| ==> names[k] in env
  }

  function Bind<V>(names: seq<string>, env: map<string, Field<V>>): (r: seq<Field<V>>)
    requires AllBound(names, env)
    ensures |r| == |names| && forall k :: 0 <= k < |r| ==> r[k] == env[names[k]]
  {
    seq(|names|, k requires 0 <= k < |names| => env[names[k]])
  }

  // ------------------------------------------------- the bindings, told from the fields

  /** The field is meant for the parameter: it carries its name, with or without the colon. */
  predicate MeantFor<V>(f: Field<V>, name: string) {
    f.name == name || ":" + f.name == name
  }

  predicate Given<V>(params: seq<Field<V>>, name: string) {
    exists k :: 0 <= k < |params| && MeantFor(params[k], name)
  }

  /** The last field that is meant for the parameter. */
  predicate LastFor<V>(params: seq<Field<V>>, name: string, k: nat) {
    k < |params| && MeantFor(params[k], name) && forall j :: k < j < |params| ==> !MeantFor(params[j], name)
  }

  ghost predicate BindsLast<V>(params: seq<Field<V>>, name: string, f: Field<V>) {
    exists k: nat :: LastFor(params, name, k) && params[k] == f
  }

  predicate AllGiven<V>(params: seq<Field<V>>, names: seq<string>) {
    forall k :: 0 <= k < |names| ==> Given(params, names[k])
  }

  /** Each name is bound to the last field that is meant for it. */
  ghost predicate BindEach<V>(params: seq<Field<V>>, names: seq<string>, fields: seq<Field<V>>) {
    |fields| == |names| && forall k :: 0 <= k < |names| ==> BindsLast(params, names[k], fields[k])
  }

  /** The name of a parameter: a colon and an identifier. */
  predicate IsParamName(name: string) {
    2 <= |name| && name[0] == ':' && IsNameStart(name[1])
  }

  lemma {:induction false} NamesAreParams(s: string)
    ensures forall n :: n in Names(Pieces(s)) ==> IsParamName(n)
    decreases |s|
  {
    if s != "" {
      NamesAreParams(s[|Source(Head(s))|..]);
      if Head(s).Param? {
        assert Head(s).name[1] == s[1];
      }
    }
  }

  lemma NormalizedIs<V>(f: Field<V>, name: string)
    requires IsParamName(name)
    ensures Normalize(f.name) == name <==> MeantFor(f, name)
  {
    assert f.name != "" ==> (":" + f.name)[1] == f.name[0];
  }

  lemma GivenMore<V>(front: seq<Field<V>>, f: Field<V>, name: string)
    ensures Given(front + [f], name) <==> Given(front, name) || MeantFor(f, name)
  {
    if Given(front, name) {
      var k :| 0 <= k < |front| && MeantFor(front[k], name);
      assert MeantFor((front + [f])[k], name);
    }
    if MeantFor(f, name) {
      assert MeantFor((front + [f])[|front|], name);
    }
  }

  lemma BindsLastMore<V>(front: seq<Field<V>>, f: Field<V>, name: string, g: Field<V>)
    requires if MeantFor(f, name) then g == f else BindsLast(front, name, g)
    ensures BindsLast(front + [f], name, g)
  {
    if MeantFor(f, name) {
      assert LastFor(front + [f], name, |front|);
    } else {
      var k: nat :| LastFor(front, name, k) && front[k] == g;
      assert LastFor(front + [f], name, k);
    }
  }

  /** A name is given the last field that is meant for it. */
  lemma {:induction false} ByNameIsLast<V>(params: seq<Field<V>>, name: string)
    requires IsParamName(name)
    ensures name in ByName(params) <==> Given(params, name)
    ensures name in ByName(params) ==> BindsLast(params, name, ByName(params)[name])
    decreases |params|
  {
    if params != [] {
      var front, f := params[..|params| - 1], params[|params| - 1];
      assert params == front + [f];
      ByNameIsLast(front, name);
      NormalizedIs(f, name);
      GivenMore(front, f, name);
      if name in ByName(params) {
        BindsLastMore(front, f, name, ByName(params)[name]);
      }
    }
  }

  lemma AllGivenIff<V>(params: seq<Field<V>>, names: seq<string>)
    requires forall n :: n in names ==> IsParamName(n)
    ensures AllBound(names, ByName(params)) <==> AllGiven(params, names)
  {
    forall k | 0 <= k < |names|
      ensures names[k] in ByName(params) <==> Given(params, names[k])
    {
      assert names[k] in names;
      ByNameIsLast(params, names[k]);
    }
  }

  lemma BindsEach<V>(params: seq<Field<V>>, names: seq<string>)
    requires (forall n :: n in names ==> IsParamName(n)) && AllBound(names, ByName(params))
    ensures BindEach(params, names, Bind(names, ByName(params)))
  {
    forall k | 0 <= k < |names|
      ensures BindsLast(params, names[k], Bind(names, ByName(params))[k])
    {
      assert names[k] in names;
      ByNameIsLast(params, names[k]);
    }
  }

  /** The distinct names, in order of first occurrence. */
  function Distinct(names: seq<string>): (r: seq<string>)
    ensures forall n :: n in r <==> n in names
    ensures forall i, j :: 0 <= i < j < |r| ==> r[i] != r[j]
  {
    if names == [] then []
    else
      var front, last := names[..|names| - 1], names[|names| - 1];
      assert names == front + [last];
      if last in front then Distinct(front) else Distinct(front) + [last]
  }

  /** Where `n` stands in `names`; the length if it is missing. */
  function IndexOf(names: seq<string>, n: string): (k: nat)
    ensures k <= |names|
    ensures k < |names| <==> n in names
    ensures k < |names| ==> names[k] == n
    ensures forall j :: 0 <= j < k ==> names[j] != n
  {
    if names == [] then 0 else if names[0] == n then 0 else 1 + IndexOf(names[1..], n)
  }
}
