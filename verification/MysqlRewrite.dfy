/** Positional placeholders. */
module MysqlRewrite {
  // Named to positional placeholders (src/mysql.rs).

  import opened Common
  import opened SqlPieces
  import opened RewriteLoops

  function Positional(): string -> string {
    (n: string) => "?"
  }

  /** What a successful rewrite returns for the pieces of a statement. */
  function PositionalText(ps: seq<Piece>): string {
    Render(ps, Positional())
  }

  /** The pieces `done` end at `i`; they name the parameters `names` and their text is `out`. */
  ghost predicate Written(sql: string, i: nat, done: seq<Piece>, names: seq<string>, out: string) {
    && Progress(sql, i, done)
    && names == Names(done)
    && out == PositionalText(done)
  }

  lemma CopyOver(sql: string, i: nat, j: nat, done: seq<Piece>, ps: seq<Piece>, names: seq<string>, out: string)
    requires Written(sql, i, done, names, out) && Copies(sql, i, j, ps)
    ensures Written(sql, j, done + ps, names, out + sql[i..j])
  {
    AdvanceCopy(sql, i, j, done, ps, Positional());
  }

  lemma WriteParam(sql: string, i: nat, j: nat, done: seq<Piece>, n: string, names: seq<string>, out: string)
    requires Written(sql, i, done, names, out) && PieceAt(sql, i, j, Param(n))
    ensures Written(sql, j, done + [Param(n)], names + [n], out + "?")
    ensures n in Names(Pieces(sql))
  {
    AdvanceParam(sql, i, j, done, n, Positional());
  }

  lemma CloseTag(sql: string, open: nat, i: nat, tag: string, done: seq<Piece>, names: seq<string>, out: string)
    requires Written(sql, open, done, names, out) && TagClosed(sql, open, i, tag)
    ensures open < i <= |sql| && Written(sql, i, done + [Opaque(sql[open..i])], names, out + sql[open..i])
  {
    TagRegion(sql, open, i, tag);
    CopyOver(sql, open, i, done, [Opaque(sql[open..i])], names, out);
  }

  ghost predicate Booked<V>(names: seq<string>, env: map<string, Field<V>>, ordered: seq<Field<V>>) {
    AllBound(names, env) && ordered == Bind(names, env)
  }

  lemma BookNext<V>(names: seq<string>, env: map<string, Field<V>>, ordered: seq<Field<V>>, n: string)
    requires Booked(names, env, ordered) && n in env
    ensures Booked(names + [n], env, ordered + [env[n]])
  {
  }

  /** Some parameter is missing, so the rewrite must fail. */
  lemma Missing<V>(sql: string, i: nat, j: nat, done: seq<Piece>, names: seq<string>, out: string, n: string,
                   env: map<string, Field<V>>)
    requires Written(sql, i, done, names, out) && PieceAt(sql, i, j, Param(n)) && n !in env
    ensures n in Names(Pieces(sql)) && !AllBound(Names(Pieces(sql)), env)
  {
    WriteParam(sql, i, j, done, n, names, out);
  }

  lemma Finish(sql: string, done: seq<Piece>, names: seq<string>, out: string)
    requires Written(sql, |sql|, done, names, out)
    ensures names == Names(Pieces(sql)) && out == PositionalText(Pieces(sql))
  {
    ProgressEnd(sql, done);
  }

  /**
   Fails exactly when some parameter at a code position has no field. On success the text is
   the statement with each parameter replaced by `?`, and the fields returned are the ones
   bound to the parameters, occurrence by occurrence.
   */
  method RewriteSql<V>(sql: string, params: seq<Field<V>>) returns (r: Result<(string, seq<Field<V>>), string>)
    ensures r.Ok? <==> AllBound(Names(Pieces(sql)), ByName(params))
    ensures r.Ok? ==> r.value.0 == PositionalText(Pieces(sql))
    ensures r.Ok? ==> r.value.1 == Bind(Names(Pieces(sql)), ByName(params))
    ensures r.Ok? <==> AllGiven(params, Names(Pieces(sql)))
    ensures r.Ok? ==> BindEach(params, Names(Pieces(sql)), r.value.1)
    ensures r.Err? ==> r.error in Names(Pieces(sql)) && r.error !in ByName(params)
  {
    NamesAreParams(sql);
    AllGivenIff(params, Names(Pieces(sql)));
    var byName := Gather(params);
    var ordered: seq<Field<V>> := [];
    var out := "";
    var i := 0;
    var dollarTag: Option<string> := None;
    ghost var done: seq<Piece> := [];
    ghost var names: seq<string> := [];
    ghost var open, written := 0, "";
    ProgressStart(sql);
    while i < |sql|
      invariant open <= i <= |sql| && Written(sql, open, done, names, written)
      invariant if dollarTag.None? then open == i
                else InTag(sql, open, i, dollarTag.value)
      invariant out == if dollarTag.None? then written else written + sql[open..i]
      invariant Booked(names, byName, ordered)
    {
      if dollarTag.Some? {
        var closed;
        ghost var tag := dollarTag.value;
        i, out, closed := CopyTagged(sql, open, i, dollarTag.value, out, written);
        if closed {
          dollarTag := None;
          CloseTag(sql, open, i, tag, done, names, written);
          done, open, written := done + [Opaque(sql[open..i])], i, out;
        }
      } else {
        var start := i;
        if ParamStarts(sql, i) {
          i := ScanParam(sql, i);
          var rawName := sql[start..i];
          if rawName !in byName {
            Missing(sql, start, i, done, names, written, rawName, byName);
            return Err(rawName);
          }
          BookNext(names, byName, ordered, rawName);
          ordered := ordered + [byName[rawName]];
          out := out + "?";
          WriteParam(sql, start, i, done, rawName, names, written);
          done, names, open, written := done + [Param(rawName)], names + [rawName], i, out;
        } else {
          ghost var ps;
          i, out, dollarTag, ps := CopyCode(sql, i, out);
          if dollarTag.None? {
            CopyOver(sql, start, i, done, ps, names, written);
            done, open, written := done + ps, i, out;
          }
        }
      }
    }
    if dollarTag.Some? {
      InTagCloses(sql, open, i, dollarTag.value);
      CloseTag(sql, open, i, dollarTag.value, done, names, written);
      done, written := done + [Opaque(sql[open..i])], out;
    }
    Finish(sql, done, names, written);
    BindsEach(params, Names(Pieces(sql)));
    return Ok((out, ordered));
  }
}
