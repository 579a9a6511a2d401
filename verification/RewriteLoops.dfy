/**
 The inner copying loops that the two placeholder rewriters have in common. Each returns the
 text it pushed and, as ghost evidence, the pieces it passed over.
 */
module RewriteLoops {
  import opened Common
  import opened SqlPieces

  /** `sql[i..j]` consists of the parameter-free pieces `ps`, and the scan goes on at `j`. */
  ghost predicate Copies(sql: string, i: nat, j: nat, ps: seq<Piece>) {
    && i <= j <= |sql|
    && Pieces(sql[i..]) == ps + Pieces(sql[j..])
    && Flatten(ps) == sql[i..j]
    && Names(ps) == []
  }

  lemma {:induction false} FlattenConcat(a: seq<Piece>, b: seq<Piece>)
    ensures Flatten(a + b) == Flatten(a) + Flatten(b)
    decreases |a|
  {
    if a == [] {
      assert a + b == b;
    } else {
      FlattenConcat(a[1..], b);
      assert (a + b)[1..] == a[1..] + b;
      assert Flatten(a + b) == Source(a[0]) + (Flatten(a[1..]) + Flatten(b));
    }
  }

  /** The piece at `o` is `p` and ends at `j`. */
  ghost predicate PieceAt(sql: string, o: nat, j: nat, p: Piece) {
    && o < j <= |sql|
    && Source(p) == sql[o..j]
    && Pieces(sql[o..]) == [p] + Pieces(sql[j..])
  }

  lemma HeadPiece(sql: string, o: nat, j: nat, p: Piece)
    requires o < j <= |sql| && Head(sql[o..]) == p && Source(p) == sql[o..j]
    ensures PieceAt(sql, o, j, p)
  {
    assert sql[o..][j - o..] == sql[j..];
    PiecesUnfold(sql[o..], p, sql[j..]);
  }

  lemma AppendPiece(ps: seq<Piece>, p: Piece)
    ensures Flatten(ps + [p]) == Flatten(ps) + Source(p)
    ensures !p.Param? ==> Names(ps + [p]) == Names(ps)
  {
    FlattenConcat(ps, [p]);
    NamesConcat(ps, [p]);
    assert Flatten([p]) == Source(p) + Flatten([]);
    assert Names([p]) == (if p.Param? then [p.name] else []) + Names([]);
  }

  lemma Reassociate(ps: seq<Piece>, p: Piece, rest: seq<Piece>)
    ensures ps + ([p] + rest) == (ps + [p]) + rest
  {
  }

  /** One more piece, from `o` to `j`. */
  lemma Extend(sql: string, i: nat, o: nat, j: nat, ps: seq<Piece>, p: Piece)
    requires Copies(sql, i, o, ps) && PieceAt(sql, o, j, p) && !p.Param?
    ensures Copies(sql, i, j, ps + [p])
  {
    var before, after := Pieces(sql[i..]), Pieces(sql[j..]);
    assert before == ps + ([p] + after);
    Reassociate(ps, p, after);
    AppendPiece(ps, p);
    PushSlice("", sql, i, o, j);
    assert "" + sql[i..o] == sql[i..o] && "" + sql[i..j] == sql[i..j];
  }

  lemma Nothing(sql: string, i: nat)
    requires i <= |sql|
    ensures Copies(sql, i, i, [])
  {
  }

  lemma QuoteHead(sql: string, o: nat, j: nat)
    requires o < j <= |sql| && (sql[o] == '\'' || sql[o] == '"')
    requires QuoteEnd(sql, o + 1, sql[o]) == j
    ensures PieceAt(sql, o, j, Opaque(sql[o..j]))
  {
    QuoteEndShift(sql, o, 1, sql[o]);
    assert sql[o..][..j - o] == sql[o..j];
    HeadPiece(sql, o, j, Opaque(sql[o..j]));
  }

  /** One quoted region, from its opening quote to past its closing one or to the end of the statement. */
  ghost predicate QuotedRegion(sql: string, open: nat, j: nat, quote: char) {
    open < j <= |sql| && sql[open] == quote && QuoteEnd(sql, open + 1, quote) == j
  }

  /** Consecutive quoted regions: each starts where the one before it ends. */
  ghost predicate QuoteChain(sql: string, cuts: seq<nat>, quote: char) {
    && cuts != []
    && (quote == '\'' || quote == '"')
    && forall k :: 0 <= k < |cuts| - 1 ==> QuotedRegion(sql, cuts[k], cuts[k + 1], quote)
  }

  lemma ChainLast(sql: string, cuts: seq<nat>, quote: char) returns (front: seq<nat>, open: nat, last: nat)
    requires QuoteChain(sql, cuts, quote) && 1 < |cuts|
    ensures front == cuts[..|cuts| - 1] && open == front[|front| - 1] && last == cuts[|cuts| - 1]
    ensures front[0] == cuts[0] && QuoteChain(sql, front, quote) && QuotedRegion(sql, open, last, quote)
  {
    front, last := cuts[..|cuts| - 1], cuts[|cuts| - 1];
    open := front[|front| - 1];
    assert QuotedRegion(sql, cuts[|cuts| - 2], cuts[|cuts| - 1], quote);
  }

  lemma {:induction false} ChainCopies(sql: string, cuts: seq<nat>, quote: char) returns (ps: seq<Piece>)
    requires QuoteChain(sql, cuts, quote) && cuts[|cuts| - 1] <= |sql|
    ensures Copies(sql, cuts[0], cuts[|cuts| - 1], ps)
    decreases |cuts|
  {
    if |cuts| == 1 {
      Nothing(sql, cuts[0]);
      return [];
    }
    var front, open, last := ChainLast(sql, cuts, quote);
    ps := ChainCopies(sql, front, quote);
    QuoteHead(sql, open, last);
    Extend(sql, front[0], open, last, ps, Opaque(sql[open..last]));
    ps := ps + [Opaque(sql[open..last])];
  }

  lemma ExtendChain(sql: string, cuts: seq<nat>, quote: char, j: nat)
    requires QuoteChain(sql, cuts, quote) && QuotedRegion(sql, cuts[|cuts| - 1], j, quote)
    ensures QuoteChain(sql, cuts + [j], quote) && (cuts + [j])[0] == cuts[0]
  {
  }

  lemma Push(out: string, sql: string, i: nat, j: nat)
    requires i <= j < |sql|
    ensures out + sql[i..j] + [sql[j]] == out + sql[i..j + 1]
  {
    assert sql[i..j] + [sql[j]] == sql[i..j + 1];
  }

  lemma PushSlice(out: string, sql: string, i: nat, j: nat, k: nat)
    requires i <= j <= k <= |sql|
    ensures out + sql[i..j] + sql[j..k] == out + sql[i..k]
  {
    assert sql[i..j] + sql[j..k] == sql[i..k];
  }

  /** Copies a quoted region; a doubled quote carries the loop on into the region it opens. */
  method CopyQuoted(sql: string, i: nat, out: string) returns (j: nat, out': string, ghost ps: seq<Piece>)
    requires i < |sql| && (sql[i] == '\'' || sql[i] == '"')
    ensures i < j && Copies(sql, i, j, ps) && out' == out + sql[i..j]
  {
    ghost var cuts;
    j, out', cuts := QuoteLoop(sql, i, out);
    ps := ChainCopies(sql, cuts, sql[i]);
  }

  method QuoteLoop(sql: string, i: nat, out: string) returns (j: nat, out': string, ghost cuts: seq<nat>)
    requires i < |sql| && (sql[i] == '\'' || sql[i] == '"')
    ensures i < j <= |sql| && out' == out + sql[i..j]
    ensures QuoteChain(sql, cuts, sql[i]) && cuts[0] == i && cuts[|cuts| - 1] == j
  {
    var quote := sql[i];
    out' := out + [quote];
    j := i + 1;
    cuts := [i];
    ghost var open := i;
    var closed := false;
    while j < |sql| && !closed
      invariant i < j <= |sql| && out' == out + sql[i..j]
      invariant QuoteChain(sql, cuts, quote) && cuts[0] == i && cuts[|cuts| - 1] == open
      invariant closed ==> open == j
      invariant !closed ==> open < j && sql[open] == quote && QuoteEnd(sql, open + 1, quote) == QuoteEnd(sql, j, quote)
      decreases |sql| - j, if closed then 0 else 1
    {
      Push(out, sql, i, j);
      out' := out' + [sql[j]];
      if sql[j] == quote {
        j := j + 1;
        ExtendChain(sql, cuts, quote, j);
        cuts := cuts + [j];
        open := j;
        if j < |sql| && sql[j] == quote {
          Push(out, sql, i, j);
          out' := out' + [quote];
          j := j + 1;
        } else {
          closed := true;
        }
      } else {
        j := j + 1;
      }
    }
    if !closed {
      ExtendChain(sql, cuts, quote, j);
      cuts := cuts + [j];
    }
  }

  method CopyLineComment(sql: string, i: nat, out: string) returns (j: nat, out': string, ghost ps: seq<Piece>)
    requires i < |sql| && Starts(sql[i..], '-', '-')
    ensures i < j && Copies(sql, i, j, ps) && out' == out + sql[i..j]
  {
    out' := out + ['-', '-'];
    j := i + 2;
    var ended := false;
    while j < |sql| && !ended
      invariant i + 2 <= j <= |sql| && out' == out + sql[i..j]
      invariant QuoteEnd(sql, i + 2, '\n') == if ended then j else QuoteEnd(sql, j, '\n')
      decreases |sql| - j
    {
      Push(out, sql, i, j);
      out' := out' + [sql[j]];
      ended := sql[j] == '\n';
      j := j + 1;
    }
    QuoteEndShift(sql, i, 2, '\n');
    assert sql[i..][..j - i] == sql[i..j];
    HeadPiece(sql, i, j, Opaque(sql[i..j]));
    CopiesOne(sql, i, j, Opaque(sql[i..j]));
    ps := [Opaque(sql[i..j])];
  }

  method CopyBlockComment(sql: string, i: nat, out: string) returns (j: nat, out': string, ghost ps: seq<Piece>)
    requires i < |sql| && Starts(sql[i..], '/', '*')
    ensures i < j && Copies(sql, i, j, ps) && out' == out + sql[i..j]
  {
    out' := out + ['/', '*'];
    j := i + 2;
    var ended := false;
    while j < |sql| && !ended
      invariant i + 2 <= j <= |sql| && out' == out + sql[i..j]
      invariant BlockEnd(sql, i + 2) == if ended then j else BlockEnd(sql, j)
      decreases |sql| - j
    {
      Push(out, sql, i, j);
      out' := out' + [sql[j]];
      if sql[j] == '*' && j + 1 < |sql| && sql[j + 1] == '/' {
        Push(out, sql, i, j + 1);
        out' := out' + ['/'];
        j := j + 2;
        ended := true;
      } else {
        j := j + 1;
      }
    }
    BlockEndShift(sql, i, 2);
    assert sql[i..][..j - i] == sql[i..j];
    HeadPiece(sql, i, j, Opaque(sql[i..j]));
    CopiesOne(sql, i, j, Opaque(sql[i..j]));
    ps := [Opaque(sql[i..j])];
  }

  /** The fields by their normalised names, a later one replacing an earlier. */
  method Gather<V>(params: seq<Field<V>>) returns (byName: map<string, Field<V>>)
    ensures byName == ByName(params)
  {
    byName := map[];
    for k := 0 to |params|
      invariant byName == ByName(params[..k])
    {
      assert params[..k + 1][..k] == params[..k];
      byName := byName[Normalize(params[k].name) := params[k]];
    }
    assert params[..|params|] == params;
  }

  /** `parse_dollar_quote_tag`, an index loop with early exits. */
  method ParseDollarQuoteTag(input: string) returns (r: Option<nat>)
    ensures r == TagLength(input)
  {
    if input == "" || input[0] != '$' {
      return None;
    }
    var idx := 1;
    while idx < |input| && input[idx] != '$'
      invariant 1 <= idx <= |input|
      invariant NameEnd(input, 1) == NameEnd(input, idx)
      invariant 1 < idx ==> IsNameStart(input[1])
    {
      if idx == 1 {
        if !IsNameStart(input[idx]) {
          return None;
        }
      } else if !IsIdent(input[idx]) {
        return None;
      }
      idx := idx + 1;
    }
    if idx >= |input| || input[idx] != '$' {
      return None;
    }
    return Some(idx + 1);
  }

  /** The end of the parameter name whose colon is at `i`. */
  method ScanParam(sql: string, i: nat) returns (j: nat)
    requires i + 1 < |sql| && sql[i] == ':' && IsNameStart(sql[i + 1])
    ensures i + 1 < j <= |sql| && PieceAt(sql, i, j, Param(sql[i..j]))
  {
    j := i + 2;
    while j < |sql| && IsIdent(sql[j])
      invariant i + 2 <= j <= |sql|
      invariant NameEnd(sql, i + 1) == NameEnd(sql, j)
    {
      j := j + 1;
    }
    ParamHead(sql, i, j);
  }

  lemma ParamHead(sql: string, i: nat, j: nat)
    requires i + 1 < j <= |sql| && sql[i] == ':' && IsNameStart(sql[i + 1])
    requires NameEnd(sql, i + 1) == j
    ensures PieceAt(sql, i, j, Param(sql[i..j]))
  {
    NameEndShift(sql, i, 1);
    assert sql[i..][..j - i] == sql[i..j];
    HeadPiece(sql, i, j, Param(sql[i..j]));
  }

  predicate ParamStarts(sql: string, i: nat) {
    i + 1 < |sql| && sql[i] == ':' && IsNameStart(sql[i + 1])
  }

  lemma PlainHead(sql: string, i: nat)
    requires i < |sql| && sql[i] != '\'' && sql[i] != '"'
    requires !Starts(sql[i..], '-', '-') && !Starts(sql[i..], '/', '*') && !Starts(sql[i..], ':', ':')
    requires TagLength(sql[i..]).None? && !ParamStarts(sql, i)
    ensures PieceAt(sql, i, i + 1, Plain(sql[i]))
  {
    HeadPiece(sql, i, i + 1, Plain(sql[i]));
  }

  lemma CastHead(sql: string, i: nat)
    requires i < |sql| && Starts(sql[i..], ':', ':')
    ensures i + 2 <= |sql| && PieceAt(sql, i, i + 2, Cast)
  {
    HeadPiece(sql, i, i + 2, Cast);
  }

  /** The branches of the main loop that copy: quotes, comments, casts and single bytes. */
  method CopyPlain(sql: string, i: nat, out: string) returns (j: nat, out': string, ghost ps: seq<Piece>)
    requires i < |sql| && TagLength(sql[i..]).None? && !ParamStarts(sql, i)
    ensures i < j && Copies(sql, i, j, ps) && out' == out + sql[i..j]
  {
    if sql[i] == '\'' || sql[i] == '"' {
      j, out', ps := CopyQuoted(sql, i, out);
    } else if Starts(sql[i..], '-', '-') {
      j, out', ps := CopyLineComment(sql, i, out);
    } else if Starts(sql[i..], '/', '*') {
      j, out', ps := CopyBlockComment(sql, i, out);
    } else if Starts(sql[i..], ':', ':') {
      out' := out + "::";
      j := i + 2;
      ps := [Cast];
      CastHead(sql, i);
      Nothing(sql, i);
      Extend(sql, i, i, j, [], Cast);
      assert [] + ps == ps;
    } else {
      out' := out + [sql[i]];
      j := i + 1;
      ps := [Plain(sql[i])];
      PlainHead(sql, i);
      Nothing(sql, i);
      Extend(sql, i, i, j, [], Plain(sql[i]));
      assert [] + ps == ps;
    }
  }

  // ----------------------------------------------------- dollar-quoted regions

  /** `tag` opens a region at `open`. */
  ghost predicate TagOpen(sql: string, open: nat, tag: string) {
    && 0 < |tag|
    && HasAt(sql, open, tag)
    && TagLength(sql[open..]) == Some(|tag|)
  }

  /** The region is still open at `i`: its end is found by searching on from there. */
  ghost predicate InTag(sql: string, open: nat, i: nat, tag: string) {
    && open + |tag| <= i <= |sql|
    && TagOpen(sql, open, tag)
    && TagEnd(sql, open + |tag|, tag) == TagEnd(sql, i, tag)
  }

  /** The region ends at `i`. */
  ghost predicate TagClosed(sql: string, open: nat, i: nat, tag: string) {
    && open + |tag| <= |sql|
    && TagOpen(sql, open, tag)
    && TagEnd(sql, open + |tag|, tag) == i
  }

  lemma InTagCloses(sql: string, open: nat, i: nat, tag: string)
    requires InTag(sql, open, i, tag) && (i == |sql| || HasAt(sql, i, tag))
    ensures TagClosed(sql, open, if i == |sql| then i else i + |tag|, tag)
  {
  }

  lemma InTagGoesOn(sql: string, open: nat, i: nat, tag: string)
    requires InTag(sql, open, i, tag) && i < |sql| && !HasAt(sql, i, tag)
    ensures InTag(sql, open, i + 1, tag)
  {
  }

  /** One turn of the main loop inside a dollar-quoted region: the closing tag, or one byte of text. */
  method CopyTagged(sql: string, ghost open: nat, i: nat, tag: string, out: string, ghost before: string)
    returns (j: nat, out': string, closed: bool)
    requires InTag(sql, open, i, tag) && i < |sql| && out == before + sql[open..i]
    ensures i < j <= |sql| && out' == before + sql[open..j]
    ensures if closed then TagClosed(sql, open, j, tag) else InTag(sql, open, j, tag)
  {
    if HasAt(sql, i, tag) {
      InTagCloses(sql, open, i, tag);
      PushSlice(before, sql, open, i, i + |tag|);
      return i + |tag|, out + tag, true;
    }
    InTagGoesOn(sql, open, i, tag);
    Push(before, sql, open, i);
    return i + 1, out + [sql[i]], false;
  }

  lemma InTagOpens(sql: string, open: nat, n: nat)
    requires open < |sql| && TagLength(sql[open..]) == Some(n)
    ensures open + n <= |sql| && InTag(sql, open, open + n, sql[open..open + n])
  {
  }

  /** The end of a dollar-quoted region: its closing tag, or the end of the statement. */
  lemma TagRegion(sql: string, open: nat, i: nat, tag: string)
    requires TagClosed(sql, open, i, tag)
    ensures PieceAt(sql, open, i, Opaque(sql[open..i]))
    ensures Copies(sql, open, i, [Opaque(sql[open..i])])
  {
    var r := sql[open..];
    assert r[0] == '$' && r[..|tag|] == tag;
    TagEndShift(sql, open, |tag|, tag);
    assert r[..i - open] == sql[open..i];
    HeadPiece(sql, open, i, Opaque(sql[open..i]));
    CopiesOne(sql, open, i, Opaque(sql[open..i]));
  }

  /** One turn of the main loop in code, where no parameter starts: a dollar-quote tag is entered, or a piece copied. */
  method CopyCode(sql: string, i: nat, out: string)
    returns (j: nat, out': string, tag: Option<string>, ghost ps: seq<Piece>)
    requires i < |sql| && !ParamStarts(sql, i)
    ensures i < j <= |sql| && out' == out + sql[i..j]
    ensures if tag.Some? then InTag(sql, i, j, tag.value) else Copies(sql, i, j, ps)
  {
    var tagLen := ParseDollarQuoteTag(sql[i..]);
    if tagLen.Some? {
      InTagOpens(sql, i, tagLen.value);
      j := i + tagLen.value;
      return j, out + sql[i..j], Some(sql[i..j]), [];
    }
    j, out', ps := CopyPlain(sql, i, out);
    tag := None;
  }

  // ------------------------------------------------------------- main-loop state

  /** The pieces `done` cover `sql[..i]` and the scan goes on at `i`. */
  ghost predicate Progress(sql: string, i: nat, done: seq<Piece>) {
    i <= |sql| && Pieces(sql) == done + Pieces(sql[i..])
  }

  lemma ProgressStart(sql: string)
    ensures Progress(sql, 0, [])
  {
    assert sql[0..] == sql;
  }

  lemma ProgressEnd(sql: string, done: seq<Piece>)
    requires Progress(sql, |sql|, done)
    ensures done == Pieces(sql)
  {
    assert sql[|sql|..] == "";
  }

  lemma Regroup3(a: seq<Piece>, b: seq<Piece>, c: seq<Piece>)
    ensures a + (b + c) == (a + b) + c
  {
  }

  lemma AdvanceCopy(sql: string, i: nat, j: nat, done: seq<Piece>, ps: seq<Piece>, f: string -> string)
    requires Progress(sql, i, done) && Copies(sql, i, j, ps)
    ensures Progress(sql, j, done + ps)
    ensures Names(done + ps) == Names(done)
    ensures Render(done + ps, f) == Render(done, f) + sql[i..j]
  {
    Regroup3(done, ps, Pieces(sql[j..]));
    NamesConcat(done, ps);
    RenderConcat(done, ps, f);
    RenderOpaque(ps, f);
  }

  lemma AdvanceParam(sql: string, i: nat, j: nat, done: seq<Piece>, n: string, f: string -> string)
    requires Progress(sql, i, done) && PieceAt(sql, i, j, Param(n))
    ensures Progress(sql, j, done + [Param(n)])
    ensures Names(done + [Param(n)]) == Names(done) + [n]
    ensures Render(done + [Param(n)], f) == Render(done, f) + f(n)
    ensures n in Names(Pieces(sql))
  {
    var p := Param(n);
    Regroup3(done, [p], Pieces(sql[j..]));
    NamesConcat(done, [p]);
    RenderConcat(done, [p], f);
    assert Names([p]) == [n] + Names([]);
    assert Render([p], f) == f(n) + Render([], f);
    NamesConcat(done + [p], Pieces(sql[j..]));
  }

  lemma CopiesOne(sql: string, i: nat, j: nat, p: Piece)
    requires PieceAt(sql, i, j, p) && !p.Param?
    ensures Copies(sql, i, j, [p])
  {
    Nothing(sql, i);
    Extend(sql, i, i, j, [], p);
    assert [] + [p] == [p];
  }
}
