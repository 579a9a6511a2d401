/** Numbered placeholders. */
module PostgresRewrite {
  // Named to numbered placeholders (src/postgres.rs).

  import opened Common
  import opened Numerals
  import opened SqlPieces
  import opened RewriteLoops

  /** The placeholder of a name, numbered by its place among the distinct names. */
  function Numbered(names: seq<string>): string -> string {
    (n: string) => "$" + Decimal(IndexOf(names, n) + 1)
  }

  /** What a successful rewrite returns for the pieces of a statement. */
  function NumberedText(ps: seq<Piece>): string {
    Render(ps, Numbered(Distinct(Names(ps))))
  }

  lemma DistinctGrows(names: seq<string>, n: string)
    ensures Distinct(names + [n]) == if n in names then Distinct(names) else Distinct(names) + [n]
  {
    assert (names + [n])[..|names|] == names;
  }

  lemma {:induction false} IndexOfAppend(names: seq<string>, last: string, n: string)
    ensures n in names ==> IndexOf(names + [last], n) == IndexOf(names, n)
    ensures n !in names && n == last ==> IndexOf(names + [last], n) == |names|
    decreases |names|
  {
    if names == [] {
      assert names + [last] == [last];
    } else {
      IndexOfAppend(names[1..], last, n);
      assert (names + [last])[1..] == names[1..] + [last];
    }
  }

  lemma NumberStays(names: seq<string>, n: string, m: string)
    requires m in names
    ensures Numbered(names + [n])(m) == Numbered(names)(m)
  {
    IndexOfAppend(names, n, m);
  }

  /** Numbers given once stay: a later first occurrence changes no text already written. */
  lemma TextStays(done: seq<Piece>, n: string)
    ensures var names := Distinct(Names(done));
            Render(done, Numbered(Distinct(Names(done) + [n]))) == Render(done, Numbered(names))
  {
    var names := Distinct(Names(done));
    DistinctGrows(Names(done), n);
    if n !in names {
      var f, g := Numbered(names + [n]), Numbered(names);
      forall m | m in Names(done)
        ensures f(m) == g(m)
      {
        assert m in names;
        NumberStays(names, n, m);
      }
      RenderSame(done, f, g);
    }
  }

  /** The numbers in use are exactly the places of the distinct names seen so far. */
  ghost predicate Assigned(numbers: map<string, nat>, names: seq<string>) {
    && (forall n :: n in numbers <==> n in names)
    && (forall n :: n in numbers ==> numbers[n] == IndexOf(names, n) + 1)
  }

  lemma AssignNext(numbers: map<string, nat>, names: seq<string>, n: string)
    requires Assigned(numbers, names) && n !in names
    ensures Assigned(numbers[n := |names| + 1], names + [n])
  {
    forall m | m in numbers[n := |names| + 1]
      ensures numbers[n := |names| + 1][m] == IndexOf(names + [n], m) + 1
    {
      IndexOfAppend(names, n, m);
    }
  }

  /** The numbers and fields in use once the distinct names `names` have been met. */
  ghost predicate Booked<V>(names: seq<string>, env: map<string, Field<V>>, numbers: map<string, nat>,
                            ordered: seq<Field<V>>) {
    && Assigned(numbers, names)
    && AllBound(names, env)
    && ordered == Bind(names, env)
  }

  /** The pieces `done` end at `i`; their distinct names are `names` and their text is `out`. */
  ghost predicate Written(sql: string, i: nat, done: seq<Piece>, names: seq<string>, out: string) {
    && Progress(sql, i, done)
    && names == Distinct(Names(done))
    && out == NumberedText(done)
  }

  function Meet(names: seq<string>, n: string): seq<string> {
    if n in names then names else names + [n]
  }

  lemma CopyOver(sql: string, i: nat, j: nat, done: seq<Piece>, ps: seq<Piece>, names: seq<string>, out: string)
    requires Written(sql, i, done, names, out) && Copies(sql, i, j, ps)
    ensures Written(sql, j, done + ps, names, out + sql[i..j])
  {
    AdvanceCopy(sql, i, j, done, ps, Numbered(names));
  }

  lemma WriteParam(sql: string, i: nat, j: nat, done: seq<Piece>, n: string, names: seq<string>, out: string)
    requires Written(sql, i, done, names, out) && PieceAt(sql, i, j, Param(n))
    ensures Written(sql, j, done + [Param(n)], Meet(names, n), out + Numbered(Meet(names, n))(n))
    ensures n in Names(Pieces(sql))
  {
    AdvanceParam(sql, i, j, done, n, Numbered(Meet(names, n)));
    TextStays(done, n);
    DistinctGrows(Names(done), n);
  }

  /** The branch for a named parameter: reuse its number, or give it the next one and bind its field. */
  method PlaceParam<V>(rawName: string, byName: map<string, Field<V>>, ghost names: seq<string>,
                       out: string, numbers: map<string, nat>, ordered: seq<Field<V>>)
    returns (out': string, numbers': map<string, nat>, ordered': seq<Field<V>>)
    requires Booked(names, byName, numbers, ordered) && rawName in byName
    ensures Booked(Meet(names, rawName), byName, numbers', ordered')
    ensures out' == out + Numbered(Meet(names, rawName))(rawName)
  {
    var number: nat;
    if rawName in numbers {
      number, numbers', ordered' := numbers[rawName], numbers, ordered;
    } else {
      number := |ordered| + 1;
      AssignNext(numbers, names, rawName);
      numbers' := numbers[rawName := number];
      ordered' := ordered + [byName[rawName]];
      IndexOfAppend(names, rawName, rawName);
    }
    out' := out + ("$" + Decimal(number));
  }

  lemma AllPresent<V>(done: seq<Piece>, env: map<string, Field<V>>)
    requires AllBound(Distinct(Names(done)), env)
    ensures AllBound(Names(done), env)
  {
    forall k | 0 <= k < |Names(done)|
      ensures Names(done)[k] in env
    {
      assert Names(done)[k] in Distinct(Names(done));
    }
  }

  lemma CloseTag(sql: string, open: nat, i: nat, tag: string, done: seq<Piece>, names: seq<string>, out: string)
    requires Written(sql, open, done, names, out) && TagClosed(sql, open, i, tag)
    ensures open < i <= |sql| && Written(sql, i, done + [Opaque(sql[open..i])], names, out + sql[open..i])
  {
    TagRegion(sql, open, i, tag);
    CopyOver(sql, open, i, done, [Opaque(sql[open..i])], names, out);
  }

  /** Some parameter is missing, so the rewrite must fail. */
  lemma Missing<V>(sql: string, i: nat, j: nat, done: seq<Piece>, names: seq<string>, out: string, n: string,
                   env: map<string, Field<V>>)
    requires Written(sql, i, done, names, out) && PieceAt(sql, i, j, Param(n)) && n !in env
    ensures n in Names(Pieces(sql)) && !AllBound(Names(Pieces(sql)), env)
  {
    WriteParam(sql, i, j, done, n, names, out);
  }

  lemma Finish<V>(sql: string, done: seq<Piece>, names: seq<string>, out: string, env: map<string, Field<V>>)
    requires Written(sql, |sql|, done, names, out) && AllBound(names, env)
    ensures names == Distinct(Names(Pieces(sql))) && out == NumberedText(Pieces(sql))
    ensures AllBound(Names(Pieces(sql)), env)
  {
    ProgressEnd(sql, done);
    AllPresent(done, env);
  }

  /**
   Fails exactly when some parameter at a code position has no field. On success the text is
   the statement with each parameter replaced by `$k`, where k counts first occurrences, and
   the k-th field returned is the one bound to the k-th distinct name.
   */
  method RewriteSql<V>(sql: string, params: seq<Field<V>>) returns (r: Result<(string, seq<Field<V>>), string>)
    ensures r.Ok? <==> AllBound(Names(Pieces(sql)), ByName(params))
    ensures r.Ok? ==> r.value.0 == NumberedText(Pieces(sql))
    ensures r.Ok? ==> AllBound(Distinct(Names(Pieces(sql))), ByName(params))
    ensures r.Ok? ==> r.value.1 == Bind(Distinct(Names(Pieces(sql))), ByName(params))
    ensures r.Ok? <==> AllGiven(params, Names(Pieces(sql)))
    ensures r.Ok? ==> BindEach(params, Distinct(Names(Pieces(sql))), r.value.1)
    ensures r.Err? ==> r.error in Names(Pieces(sql)) && r.error !in ByName(params)
  {
    NamesAreParams(sql);
    AllGivenIff(params, Names(Pieces(sql)));
    var byName := Gather(params);
    var numbers: map<string, nat> := map[];
    var ordered: seq<Field<V>> := [];
    var out := "";
    var i := 0;
    var dollarTag: Option<string> := None;
    ghost var done: seq<Piece> := [];
    ghost var names: seq<string> := [];
    ghost var open, written := 0, "";
    ProgressStart(sql);
    while i < |sql|
      invariant open <= i <= |sql| && Written(sql, open, done, names, written)
      invariant if dollarTag.None? then open == i
                else InTag(sql, open, i, dollarTag.value)
      invariant out == if dollarTag.None? then written else written + sql[open..i]
      invariant Booked(names, byName, numbers, ordered)
    {
      if dollarTag.Some? {
        var closed;
        ghost var tag := dollarTag.value;
        i, out, closed := CopyTagged(sql, open, i, dollarTag.value, out, written);
        if closed {
          dollarTag := None;
          CloseTag(sql, open, i, tag, done, names, written);
          done, open, written := done + [Opaque(sql[open..i])], i, out;
        }
      } else {
        var start := i;
        if ParamStarts(sql, i) {
          i := ScanParam(sql, i);
          var rawName := sql[start..i];
          if rawName !in byName {
            Missing(sql, start, i, done, names, written, rawName, byName);
            return Err(rawName);
          }
          out, numbers, ordered := PlaceParam(rawName, byName, names, out, numbers, ordered);
          WriteParam(sql, start, i, done, rawName, names, written);
          done, names, open, written := done + [Param(rawName)], Meet(names, rawName), i, out;
        } else {
          ghost var ps;
          i, out, dollarTag, ps := CopyCode(sql, i, out);
          if dollarTag.None? {
            CopyOver(sql, start, i, done, ps, names, written);
            done, open, written := done + ps, i, out;
          }
        }
      }
    }
    if dollarTag.Some? {
      InTagCloses(sql, open, i, dollarTag.value);
      CloseTag(sql, open, i, dollarTag.value, done, names, written);
      done, written := done + [Opaque(sql[open..i])], out;
    }
    Finish(sql, done, names, written, byName);
    BindsEach(params, Distinct(Names(Pieces(sql))));
    return Ok((out, ordered));
  }
}
