/** Dialects compared. */
module RewriteProofs {
  // What the two placeholder rewrites mean: they agree with each other, they can be undone, and
  // their output scans as their input did.

  import opened Common
  import opened Numerals
  import opened SqlPieces
  import opened PostgresRewrite
  import opened MysqlRewrite
  import opened RewriteScan

  // ------------------------------------------------------- the dialects agree

  /** The verbatim text before, between and after the parameters. */
  function Gaps(ps: seq<Piece>): (gs: seq<string>)
    ensures |gs| == |Names(ps)| + 1
  {
    if ps == [] then [""]
    else
      var gs := Gaps(ps[1..]);
      if ps[0].Param? then [""] + gs else [Source(ps[0]) + gs[0]] + gs[1..]
  }

  /** Gap, mark, gap, mark, ..., gap. */
  function Interleave(gaps: seq<string>, marks: seq<string>): string
    requires |gaps| == |marks| + 1
    decreases |marks|
  {
    if marks == [] then gaps[0] else gaps[0] + marks[0] + Interleave(gaps[1..], marks[1..])
  }

  function Marks(names: seq<string>, f: string -> string): (ms: seq<string>)
    ensures |ms| == |names|
  {
    seq(|names|, k requires 0 <= k < |names| => f(names[k]))
  }

  lemma {:induction false} RenderInterleaves(ps: seq<Piece>, f: string -> string)
    ensures Render(ps, f) == Interleave(Gaps(ps), Marks(Names(ps), f))
    decreases |ps|
  {
    if ps != [] {
      RenderInterleaves(ps[1..], f);
      InterleaveOne(ps, f);
    }
  }

  lemma InterleaveOne(ps: seq<Piece>, f: string -> string)
    requires ps != []
    ensures Interleave(Gaps(ps), Marks(Names(ps), f))
            == RenderPiece(ps[0], f) + Interleave(Gaps(ps[1..]), Marks(Names(ps[1..]), f))
  {
    if ps[0].Param? {
      InterleaveParam(ps, f);
    } else {
      InterleaveText(ps, f);
    }
  }

  lemma InterleaveParam(ps: seq<Piece>, f: string -> string)
    requires ps != [] && ps[0].Param?
    ensures Interleave(Gaps(ps), Marks(Names(ps), f))
            == f(ps[0].name) + Interleave(Gaps(ps[1..]), Marks(Names(ps[1..]), f))
  {
    var gs, ms := Gaps(ps[1..]), Marks(Names(ps[1..]), f);
    ParamFirst(ps);
    MarksFirst(ps[0].name, Names(ps[1..]), f);
    MarkFirst(gs, ms, f(ps[0].name));
  }

  lemma ParamFirst(ps: seq<Piece>)
    requires ps != [] && ps[0].Param?
    ensures Names(ps) == [ps[0].name] + Names(ps[1..]) && Gaps(ps) == [""] + Gaps(ps[1..])
  {
  }

  lemma MarksFirst(n: string, names: seq<string>, f: string -> string)
    ensures Marks([n] + names, f) == [f(n)] + Marks(names, f)
  {
  }

  lemma InterleaveText(ps: seq<Piece>, f: string -> string)
    requires ps != [] && !ps[0].Param?
    ensures Interleave(Gaps(ps), Marks(Names(ps), f))
            == Source(ps[0]) + Interleave(Gaps(ps[1..]), Marks(Names(ps[1..]), f))
  {
    var gs, ms := Gaps(ps[1..]), Marks(Names(ps[1..]), f);
    WidenGap(Source(ps[0]), gs, ms);
    assert Marks(Names(ps), f) == ms;
  }

  lemma MarkFirst(gs: seq<string>, ms: seq<string>, m: string)
    requires |gs| == |ms| + 1
    ensures Interleave([""] + gs, [m] + ms) == m + Interleave(gs, ms)
  {
    assert ([""] + gs)[1..] == gs && ([m] + ms)[1..] == ms;
    assert "" + m == m;
  }

  lemma WidenGap(text: string, gs: seq<string>, ms: seq<string>)
    requires |gs| == |ms| + 1
    ensures Interleave([text + gs[0]] + gs[1..], ms) == text + Interleave(gs, ms)
  {
    var gs' := [text + gs[0]] + gs[1..];
    assert gs'[1..] == gs[1..];
    if ms != [] {
      var rest := Interleave(gs[1..], ms[1..]);
      assert (text + gs[0]) + ms[0] + rest == text + (gs[0] + ms[0] + rest);
    }
  }

  lemma {:induction false} RenderNames(ps: seq<Piece>)
    ensures Render(ps, n => n) == Flatten(ps)
    decreases |ps|
  {
    if ps != [] {
      RenderNames(ps[1..]);
    }
  }

  /** With the names back between the gaps, the statement is restored byte for byte. */
  lemma GapsCover(sql: string)
    ensures Interleave(Gaps(Pieces(sql)), Names(Pieces(sql))) == sql
  {
    var ps := Pieces(sql);
    RenderInterleaves(ps, n => n);
    assert Marks(Names(ps), n => n) == Names(ps);
    RenderNames(ps);
    PiecesCover(sql);
  }

  /** With `numbered` in the order of their numbers, the number of occurrence k selects the field of that occurrence. */
  ghost predicate SameFieldIn<V>(names: seq<string>, numbered: seq<string>, env: map<string, Field<V>>, k: nat) {
    && k < |names| && AllBound(names, env) && AllBound(numbered, env)
    && var i := IndexOf(numbered, names[k]);
    && Numbered(numbered)(names[k]) == "$" + Decimal(i + 1)
    && i < |numbered|
    && Bind(numbered, env)[i] == Bind(names, env)[k]
  }

  ghost predicate SameField<V>(names: seq<string>, env: map<string, Field<V>>, k: nat) {
    SameFieldIn(names, Distinct(names), env, k)
  }

  lemma OccurrenceIn<V>(names: seq<string>, numbered: seq<string>, env: map<string, Field<V>>, k: nat)
    requires k < |names| && AllBound(names, env) && AllBound(numbered, env) && names[k] in numbered
    ensures SameFieldIn(names, numbered, env, k)
  {
  }

  lemma DistinctBound<V>(names: seq<string>, env: map<string, Field<V>>)
    requires AllBound(names, env)
    ensures AllBound(Distinct(names), env)
  {
    forall j | 0 <= j < |Distinct(names)|
      ensures Distinct(names)[j] in env
    {
      assert Distinct(names)[j] in names;
    }
  }

  lemma Occurrence<V>(names: seq<string>, env: map<string, Field<V>>, k: nat)
    requires AllBound(names, env) && k < |names|
    ensures SameField(names, env, k)
  {
    DistinctBound(names, env);
    OccurrenceIn(names, Distinct(names), env, k);
  }

  /**
   Both dialects keep the same text around their placeholders and bind the same field at each
   occurrence: the number written for occurrence k selects, among the Postgres fields, the
   field MySQL binds k-th.
   */
  lemma DialectsAgree<V>(sql: string, env: map<string, Field<V>>)
    requires AllBound(Names(Pieces(sql)), env)
    ensures var ps := Pieces(sql);
            var names := Names(ps);
            && sql == Interleave(Gaps(ps), names)
            && NumberedText(ps) == Interleave(Gaps(ps), Marks(names, Numbered(Distinct(names))))
            && PositionalText(ps) == Interleave(Gaps(ps), Marks(names, Positional()))
            && forall k: nat :: k < |names| ==> SameField(names, env, k)
  {
    var names := Names(Pieces(sql));
    GapsCover(sql);
    RenderInterleaves(Pieces(sql), Numbered(Distinct(names)));
    RenderInterleaves(Pieces(sql), Positional());
    forall k: nat | k < |names|
      ensures SameField(names, env, k)
    {
      Occurrence(names, env, k);
    }
  }

  /** Numbers follow the order of first occurrence. */
  lemma {:induction false} NumbersInOrder(names: seq<string>, i: nat, j: nat)
    requires i < j < |Distinct(names)|
    ensures IndexOf(names, Distinct(names)[i]) < IndexOf(names, Distinct(names)[j])
    decreases |names|
  {
    var front, last := names[..|names| - 1], names[|names| - 1];
    assert names == front + [last];
    var d := Distinct(front);
    IndexOfAppend(front, last, Distinct(names)[i]);
    IndexOfAppend(front, last, Distinct(names)[j]);
    if j < |d| {
      NumbersInOrder(front, i, j);
    } else {
      assert d[i] in front;
    }
  }

  // --------------------------------------------------- the output scans alike

  /**
   Scanning the output finds every quoted region, comment and code byte of the input again,
   with placeholders as plain text, exactly when no lone dollar forms a tag with a placeholder.
   */
  lemma {:induction false} Rescan(s: string, f: string -> string, dollar: bool)
    requires MarksWith(f, dollar)
    ensures Pieces(Render(Pieces(s), f)) == Relabel(Pieces(s), f) <==> !(dollar && FormsTag(Pieces(s)))
    decreases |s|
  {
    if s != "" {
      var p, r := Head(s), Rest(s);
      var z, expected := Render(Pieces(r), f), Relabel(Pieces(r), f);
      Rescan(r, f, dollar);
      RelabelStep(s, f);
      if p.Param? {
        RescanParam(f(p.name), Pieces(r), z, expected);
      } else {
        RescanPiece(p, z, expected);
        HeadStays(s, f, dollar);
      }
    }
  }

  lemma NumberedMarks(names: seq<string>)
    ensures MarksWith(Numbered(names), true)
  {
    forall n
      ensures IsMark(Numbered(names)(n)) && Numbered(names)(n)[0] == '$'
    {
      var d := Decimal(IndexOf(names, n) + 1);
      assert forall k :: 0 <= k < |d| ==> ("$" + d)[k + 1] == d[k];
    }
  }

  /** The Postgres output scans as its input did exactly when no lone dollar forms a tag with a placeholder. */
  lemma PostgresRescan(sql: string)
    ensures var ps := Pieces(sql);
            Pieces(NumberedText(ps)) == Relabel(ps, Numbered(Distinct(Names(ps)))) <==> !FormsTag(ps)
  {
    NumberedMarks(Distinct(Names(Pieces(sql))));
    Rescan(sql, Numbered(Distinct(Names(Pieces(sql)))), true);
  }

  /** The MySQL output always scans as its input did. */
  lemma MysqlRescan(sql: string)
    ensures var ps := Pieces(sql); Pieces(PositionalText(ps)) == Relabel(ps, Positional())
  {
    Rescan(sql, Positional(), false);
  }

  lemma {:induction false} SpellHasNoParam(t: string)
    ensures Names(Spell(t)) == []
    decreases |t|
  {
    if t != "" {
      SpellHasNoParam(t[1..]);
    }
  }

  lemma {:induction false} RelabelHasNoParam(ps: seq<Piece>, f: string -> string)
    ensures Names(Relabel(ps, f)) == []
    decreases |ps|
  {
    if ps != [] {
      RelabelHasNoParam(ps[1..], f);
      if ps[0].Param? {
        SpellHasNoParam(f(ps[0].name));
        NamesConcat(Spell(f(ps[0].name)), Relabel(ps[1..], f));
      } else {
        NamesConcat([ps[0]], Relabel(ps[1..], f));
        assert Names([ps[0]]) == [];
      }
    }
  }

  /** Rewriting again, with no fields at all, is then the identity: both rewrites leave their output as it is. */
  lemma RewriteAgain(sql: string)
    ensures var out := PositionalText(Pieces(sql)); Names(Pieces(out)) == [] && PositionalText(Pieces(out)) == out
    ensures !FormsTag(Pieces(sql)) ==>
              var out := NumberedText(Pieces(sql)); Names(Pieces(out)) == [] && NumberedText(Pieces(out)) == out
  {
    var ps := Pieces(sql);
    var my, pg := PositionalText(ps), NumberedText(ps);
    MysqlRescan(sql);
    RelabelHasNoParam(ps, Positional());
    RenderOpaque(Pieces(my), Positional());
    PiecesCover(my);
    if !FormsTag(ps) {
      PostgresRescan(sql);
      RelabelHasNoParam(ps, Numbered(Distinct(Names(ps))));
      RenderOpaque(Pieces(pg), Numbered(Distinct(Names(Pieces(pg)))));
      PiecesCover(pg);
    }
  }

  // ------------------------------------------------------------------ round trip

  /** How many plain digits `ps` starts with. */
  function DigitRun(ps: seq<Piece>): (n: nat)
    ensures n <= |ps|
  {
    if ps != [] && ps[0].Plain? && IsDigit(ps[0].c) then 1 + DigitRun(ps[1..]) else 0
  }

  function DigitsOf(ps: seq<Piece>, n: nat): (d: string)
    requires n <= DigitRun(ps)
    ensures |d| == n && forall k :: 0 <= k < |d| ==> IsDigit(d[k])
  {
    if n == 0 then "" else [ps[0].c] + DigitsOf(ps[1..], n - 1)
  }

  predicate InRange(digits: string, names: seq<string>)
    requires forall k :: 0 <= k < |digits| ==> IsDigit(digits[k])
  {
    1 <= ParseDecimal(digits) <= |names|
  }

  /** What a numeral after a dollar stands for; a number out of range is left as it is. */
  function NameOf(digits: string, names: seq<string>): string
    requires forall k :: 0 <= k < |digits| ==> IsDigit(digits[k])
  {
    if InRange(digits, names) then names[ParseDecimal(digits) - 1] else "$" + digits
  }

  /** Puts the name of every `$k` in code back: an inverse that reads the rewritten text alone. */
  function PutBack(qs: seq<Piece>, names: seq<string>): string
    decreases |qs|
  {
    if qs == [] then ""
    else
      var rest := qs[1..];
      var n := DigitRun(rest);
      if qs[0] == Plain('$') && 0 < n then NameOf(DigitsOf(rest, n), names) + PutBack(rest[n..], names)
      else Source(qs[0]) + PutBack(rest, names)
  }

  /** The dollar in front of `rest` begins what looks like one of the placeholders. */
  predicate NumberFollows(rest: seq<Piece>, names: seq<string>) {
    0 < DigitRun(rest) && InRange(DigitsOf(rest, DigitRun(rest)), names)
  }

  /** The statement itself holds, in code, a dollar with a number that the rewrite gives out. */
  predicate LooksNumbered(ps: seq<Piece>, names: seq<string>) {
    ps != [] && ((ps[0] == Plain('$') && NumberFollows(ps[1..], names)) || LooksNumbered(ps[1..], names))
  }

  lemma {:induction false} SpelledDigits(d: string, qs: seq<Piece>)
    requires forall k :: 0 <= k < |d| ==> IsDigit(d[k])
    requires DigitRun(qs) == 0
    ensures DigitRun(Spell(d) + qs) == |d| == |Spell(d)|
    ensures DigitsOf(Spell(d) + qs, |d|) == d
    decreases |d|
  {
    if d == "" {
      assert Spell(d) + qs == qs;
    } else {
      SpelledDigits(d[1..], qs);
      assert (Spell(d) + qs)[1..] == Spell(d[1..]) + qs;
    }
  }

  /** One step of putting back at a dollar. */
  lemma PutBackAtDollar(rest: seq<Piece>, n: nat, names: seq<string>)
    requires n == DigitRun(rest)
    ensures PutBack([Plain('$')] + rest, names) ==
              if 0 < n then NameOf(DigitsOf(rest, n), names) + PutBack(rest[n..], names) else "$" + PutBack(rest, names)
  {
    assert ([Plain('$')] + rest)[1..] == rest;
  }

  lemma SpelledSplit(d: string, qs: seq<Piece>)
    requires |Spell(d)| == |d|
    ensures (Spell(d) + qs)[|d|..] == qs
  {
  }

  lemma NameOfNumber(names: seq<string>, n: string)
    requires n in names
    ensures NameOf(Decimal(IndexOf(names, n) + 1), names) == n
  {
    DecimalRoundTrip(IndexOf(names, n) + 1);
  }

  lemma SpellDollar(d: string, qs: seq<Piece>)
    ensures Spell("$" + d) + qs == [Plain('$')] + (Spell(d) + qs)
  {
    assert ("$" + d)[1..] == d;
    assert Spell("$" + d) == [Plain('$')] + Spell(d);
    RegroupPieces(Plain('$'), Spell(d), qs);
  }

  lemma PutBackMark(m: string, d: string, n: string, qs: seq<Piece>, names: seq<string>)
    requires d != "" && forall k :: 0 <= k < |d| ==> IsDigit(d[k])
    requires m == "$" + d && NameOf(d, names) == n && DigitRun(qs) == 0
    ensures PutBack(Spell(m) + qs, names) == n + PutBack(qs, names)
  {
    SpellDollar(d, qs);
    SpelledDigits(d, qs);
    SpelledSplit(d, qs);
    PutBackAtDollar(Spell(d) + qs, |d|, names);
  }

  lemma PutBackOne(names: seq<string>, n: string, qs: seq<Piece>)
    requires n in names && DigitRun(qs) == 0
    ensures PutBack(Spell(Numbered(names)(n)) + qs, names) == n + PutBack(qs, names)
  {
    var d := Decimal(IndexOf(names, n) + 1);
    NameOfNumber(names, n);
    PutBackMark(Numbered(names)(n), d, n, qs, names);
  }

  lemma Join(a: string, b: string, c: string)
    ensures a + b + c == a + (b + c)
  {
  }

  lemma PutBackOther(p: Piece, qs: seq<Piece>, names: seq<string>)
    requires p != Plain('$')
    ensures PutBack([p] + qs, names) == Source(p) + PutBack(qs, names)
  {
    assert ([p] + qs)[1..] == qs;
  }

  lemma {:induction false} PutBackDigits(rest: seq<Piece>, n: nat, names: seq<string>)
    requires n <= DigitRun(rest)
    ensures PutBack(rest, names) == DigitsOf(rest, n) + PutBack(rest[n..], names)
    decreases n
  {
    if n == 0 {
      assert rest[0..] == rest;
    } else {
      PutBackDigits(rest[1..], n - 1, names);
      assert rest == [rest[0]] + rest[1..] && rest[1..][n - 1..] == rest[n..];
      PutBackOther(rest[0], rest[1..], names);
      Join([rest[0].c], DigitsOf(rest[1..], n - 1), PutBack(rest[n..], names));
    }
  }

  /** A lone dollar is put back as it is unless one of the numbers follows. */
  lemma PutBackLoneDollar(rest: seq<Piece>, names: seq<string>)
    requires !NumberFollows(rest, names)
    ensures PutBack([Plain('$')] + rest, names) == "$" + PutBack(rest, names)
  {
    var n := DigitRun(rest);
    PutBackAtDollar(rest, n, names);
    if 0 < n {
      PutBackDigits(rest, n, names);
      Join("$", DigitsOf(rest, n), PutBack(rest[n..], names));
    }
  }

  // ------------------------------------------------- what the numbered text restores

  /** The numbered text from a piece boundary on. */
  function Numbering(s: string, names: seq<string>): string {
    Render(Pieces(s), Numbered(names))
  }

  lemma NumberingStep(s: string, names: seq<string>)
    requires s != ""
    ensures Numbering(s, names) == RenderPiece(Head(s), Numbered(names)) + Numbering(Rest(s), names)
  {
    RelabelStep(s, Numbered(names));
  }

  /** The digits that code goes on with are the same before and after. */
  lemma {:induction false} DigitsStay(s: string, names: seq<string>)
    ensures var ps, qs := Pieces(s), Pieces(Numbering(s, names));
            DigitRun(ps) == DigitRun(qs) && DigitsOf(ps, DigitRun(ps)) == DigitsOf(qs, DigitRun(qs))
    decreases |s|
  {
    NumberedMarks(names);
    FirstChar(s, Numbered(names), true);
    if s != "" {
      var t := Numbering(s, names);
      FirstPiece(s);
      FirstPiece(t);
      if IsDigit(s[0]) {
        IdentHead(s);
        NumberingStep(s, names);
        DigitsStay(s[1..], names);
        assert t == [s[0]] + Numbering(s[1..], names);
        DigitFirst(s, s[0], s[1..]);
        DigitFirst(t, s[0], Numbering(s[1..], names));
      } else {
        NoDigitFirst(s);
        NoDigitFirst(t);
      }
    }
  }

  lemma DigitFirst(s: string, c: char, r: string)
    requires s == [c] + r && IsDigit(c)
    ensures DigitRun(Pieces(s)) == 1 + DigitRun(Pieces(r))
    ensures DigitsOf(Pieces(s), 1 + DigitRun(Pieces(r))) == [c] + DigitsOf(Pieces(r), DigitRun(Pieces(r)))
  {
    IdentHead(s);
    PiecesUnfold(s, Plain(c), r);
    assert ([Plain(c)] + Pieces(r))[1..] == Pieces(r);
  }

  lemma NoDigitFirst(s: string)
    requires s != "" && !IsDigit(s[0])
    ensures DigitRun(Pieces(s)) == 0
  {
    FirstPiece(s);
  }

  /** A parameter's name takes every digit that follows, so none is left for the placeholder. */
  lemma NoDigitAfterParam(s: string)
    requires s != "" && Head(s).Param?
    ensures DigitRun(Pieces(Rest(s))) == 0
  {
    var r := Rest(s);
    if r != "" {
      assert r[0] == s[NameEnd(s, 1)];
      NoDigitFirst(r);
    }
  }

  /** Where code runs into a parameter: name characters up to its colon, which becomes a dollar. */
  lemma {:induction false} RunUpToParam(r: string, first: bool, names: seq<string>) returns (j: nat)
    requires RunsIntoParam(Pieces(r), first)
    ensures var z := Numbering(r, names);
            && j < |r| && j < |z| && r[j] == ':' && z[j] == '$'
            && forall k :: 0 <= k < j ==> z[k] == r[k] && IsIdent(r[k])
    decreases |r|
  {
    NumberedMarks(names);
    FirstChar(r, Numbered(names), true);
    NumberingStep(r, names);
    FirstPiece(r);
    PiecesUnfold(r, Head(r), Rest(r));
    assert Pieces(r)[1..] == Pieces(Rest(r));
    if Head(r).Param? {
      ParamStartsWithColon(r);
      j := 0;
    } else {
      IdentHead(r);
      var k := RunUpToParam(r[1..], false, names);
      j := k + 1;
      assert Numbering(r, names) == [r[0]] + Numbering(r[1..], names);
    }
  }

  /** A text whose first piece is a region, put back, still begins with that region. */
  lemma RegionFirst(t: string, names: seq<string>)
    requires t != "" && TagLength(t).Some?
    ensures var n := TagLength(t).value; n <= |PutBack(Pieces(t), names)| && PutBack(Pieces(t), names)[..n] == t[..n]
  {
    var n := TagLength(t).value;
    var e := TagEnd(t, n, t[..n]);
    var p := Opaque(t[..e]);
    assert Head(t) == p;
    PiecesUnfold(t, p, t[e..]);
    PutBackOther(p, Pieces(t[e..]), names);
    assert t[..e][..n] == t[..n];
  }

  lemma {:induction false} NameEndAt(s: string, i: nat, e: nat)
    requires i <= e < |s| && !IsIdent(s[e])
    requires forall k :: i <= k < e ==> IsIdent(s[k])
    ensures NameEnd(s, i) == e
    decreases e - i
  {
    if i < e {
      NameEndAt(s, i + 1, e);
    }
  }

  /** A tag reaches to the dollar after its name. */
  lemma TagReaches(z: string, j: nat)
    requires TagLength("$" + z).Some? && j < |z| && z[j] == '$'
    requires forall k :: 0 <= k < j ==> IsIdent(z[k])
    ensures TagLength("$" + z) == Some(j + 2)
  {
    var t := "$" + z;
    assert forall k :: 1 <= k <= j + 1 ==> t[k] == z[k - 1];
    NameEndAt(t, 1, j + 1);
  }

  /** A dollar that forms a tag with a placeholder hides it: the parameter's colon is not put back. */
  lemma TagHidesParam(r: string, names: seq<string>)
    requires RunsIntoParam(Pieces(r), true)
    ensures PutBack(Pieces("$" + Numbering(r, names)), names) != "$" + r
  {
    var z := Numbering(r, names);
    NumberedMarks(names);
    TagTailRendered(r, true, Numbered(names), true);
    TagLengthTail(z);
    var j := RunUpToParam(r, true, names);
    TagReaches(z, j);
    RegionFirst("$" + z, names);
    Differ(PutBack(Pieces("$" + z), names), r, z, j);
  }

  lemma Differ(back: string, r: string, z: string, j: nat)
    requires j < |r| && j < |z| && z[j] != r[j]
    requires j + 2 <= |back| && back[..j + 2] == ("$" + z)[..j + 2]
    ensures back != "$" + r
  {
    assert back[j + 1] == back[..j + 2][j + 1] == z[j];
    assert ("$" + r)[j + 1] == r[j];
  }

  // ----------------------------------------------------------------------- theorem

  lemma SameTail(a: string, x: string, y: string)
    ensures a + x == a + y <==> x == y
  {
    if a + x == a + y {
      assert x == (a + x)[|a|..];
      assert y == (a + y)[|a|..];
    }
  }

  ghost predicate Restores(s: string, names: seq<string>) {
    PutBack(Pieces(Numbering(s, names)), names) == s
  }

  lemma RestoresParam(s: string, names: seq<string>)
    requires s != "" && Head(s).Param? && Head(s).name in names
    ensures Restores(s, names) <==> Restores(Rest(s), names)
  {
    var m, r := Numbered(names)(Head(s).name), Rest(s);
    var z := Numbering(r, names);
    NumberingStep(s, names);
    NumberedMarks(names);
    RescanParam(m, Pieces(r), z, Pieces(z));
    NoDigitAfterParam(s);
    DigitsStay(r, names);
    PutBackOne(names, Head(s).name, Pieces(z));
    SameTail(Head(s).name, PutBack(Pieces(z), names), r);
  }

  lemma RestoresOther(s: string, names: seq<string>)
    requires s != "" && !Head(s).Param? && Head(s) != Plain('$')
    ensures Restores(s, names) <==> Restores(Rest(s), names)
  {
    var p, r := Head(s), Rest(s);
    var z := Numbering(r, names);
    NumberingStep(s, names);
    NumberedMarks(names);
    HeadStays(s, Numbered(names), true);
    RescanPiece(p, z, Pieces(z));
    PutBackOther(p, Pieces(z), names);
    SameTail(Source(p), PutBack(Pieces(z), names), r);
  }

  lemma RestoresDollar(s: string, names: seq<string>)
    requires s != "" && Head(s) == Plain('$')
    requires forall n :: n in names ==> n != "" && n[0] == ':'
    ensures Restores(s, names) <==>
              !RunsIntoParam(Pieces(Rest(s)), true)
              && !NumberFollows(Pieces(Rest(s)), names) && Restores(Rest(s), names)
  {
    var r := Rest(s);
    var z := Numbering(r, names);
    NumberingStep(s, names);
    if RunsIntoParam(Pieces(r), true) {
      TagHidesParam(r, names);
    } else {
      NumberedMarks(names);
      HeadStays(s, Numbered(names), true);
      RescanPiece(Plain('$'), z, Pieces(z));
      DigitsStay(r, names);
      if NumberFollows(Pieces(r), names) {
        NameIsNoDollar(Pieces(z), names, r);
      } else {
        PutBackLoneDollar(Pieces(z), names);
        SameTail("$", PutBack(Pieces(z), names), r);
      }
    }
  }

  lemma NameIsNoDollar(rest: seq<Piece>, names: seq<string>, r: string)
    requires NumberFollows(rest, names) && forall n :: n in names ==> n != "" && n[0] == ':'
    ensures PutBack([Plain('$')] + rest, names) != "$" + r
  {
    var d := DigitsOf(rest, DigitRun(rest));
    var n := names[ParseDecimal(d) - 1];
    PutBackAtDollar(rest, |d|, names);
    assert n in names;
    assert PutBack([Plain('$')] + rest, names)[0] == n[0] == ':';
  }

  lemma {:induction false} RestoresIff(s: string, names: seq<string>)
    requires forall n :: n in Names(Pieces(s)) ==> n in names
    requires forall n :: n in names ==> n != "" && n[0] == ':'
    ensures Restores(s, names) <==> !FormsTag(Pieces(s)) && !LooksNumbered(Pieces(s), names)
    decreases |s|
  {
    if s != "" {
      var p, r := Head(s), Rest(s);
      PiecesUnfold(s, p, r);
      assert Pieces(s)[1..] == Pieces(r) && Pieces(s)[0] == p;
      RestoresIff(r, names);
      if p.Param? {
        assert p.name in Names(Pieces(s));
        RestoresParam(s, names);
      } else if p == Plain('$') {
        RestoresDollar(s, names);
      } else {
        RestoresOther(s, names);
      }
    }
  }

  /**
   The Postgres rewrite can be undone from its text and the distinct names alone, putting each number's
   name back, exactly when no lone dollar forms a tag with a placeholder and the statement does not itself
   hold, in code, a dollar with one of the numbers given out.
   */
  lemma PostgresRoundTripIff(sql: string)
    ensures var ps := Pieces(sql);
            var names := Distinct(Names(ps));
            PutBack(Pieces(NumberedText(ps)), names) == sql <==> !FormsTag(ps) && !LooksNumbered(ps, names)
  {
    NamesAreParams(sql);
    RestoresIff(sql, Distinct(Names(Pieces(sql))));
  }

  /** A stray dollar before a parameter: the placeholder becomes part of a tag and is not read again. */
  lemma DollarBeforeParam()
    ensures var ps := Pieces("$:a");
            && FormsTag(ps)
            && Pieces(NumberedText(ps)) != Relabel(ps, Numbered(Distinct(Names(ps))))
            && PutBack(Pieces(NumberedText(ps)), Distinct(Names(ps))) != "$:a"
  {
    var s := "$:a";
    assert Head(s) == Plain('$') && s[1..] == ":a";
    PiecesUnfold(s, Plain('$'), ":a");
    FirstPiece(":a");
    ParamHere();
    assert Pieces(s)[1..] == Pieces(":a");
    PostgresRescan(s);
    PostgresRoundTripIff(s);
  }

  lemma ParamHere()
    ensures Head(":a").Param?
  {
  }

  lemma NumberPieces()
    ensures Pieces("$1") == [Plain('$')] + Pieces("1") && Pieces(":a$1") == [Param(":a")] + Pieces("$1")
  {
    var s, r := ":a$1", "$1";
    assert NameEnd(s, 2) == 2 && NameEnd(s, 1) == 2 && s[..2] == ":a";
    assert Head(s) == Param(":a") && s[2..] == r;
    PiecesUnfold(s, Param(":a"), r);
    assert Head(r) == Plain('$') && r[1..] == "1";
    PiecesUnfold(r, Plain('$'), "1");
  }

  lemma OneFollows(names: seq<string>)
    requires names != []
    ensures NumberFollows(Pieces("1"), names)
  {
    DigitFirst("1", '1', "");
    assert "1"[..0] == "" && ParseDecimal("1") == 1;
  }

  /** A number that a statement itself holds is taken for a placeholder. */
  lemma NumberInStatement()
    ensures var ps := Pieces(":a$1");
            LooksNumbered(ps, Distinct(Names(ps))) && PutBack(Pieces(NumberedText(ps)), Distinct(Names(ps))) != ":a$1"
  {
    var ps, r := Pieces(":a$1"), Pieces("$1");
    var names := Distinct(Names(ps));
    NumberPieces();
    assert ps[0] == Param(":a") && ps[1..] == r && r[0] == Plain('$') && r[1..] == Pieces("1");
    assert ":a" in Names(ps) && ":a" in names;
    OneFollows(names);
    assert LooksNumbered(r, names);
    PostgresRoundTripIff(":a$1");
  }
}
