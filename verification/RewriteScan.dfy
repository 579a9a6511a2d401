/**
 How the output of a placeholder rewrite scans, piece by piece: every region of the input is found
 again, and a placeholder is read as plain text. `Relabel` gives the pieces expected, `FormsTag` says
 when a lone dollar in code joins a placeholder into a dollar-quote tag.
 */
module RewriteScan {
  import opened Common
  import opened SqlPieces

  /** The placeholders in use: `?`, or a dollar and a numeral. */
  predicate IsMark(m: string) {
    m == "?" || (2 <= |m| && m[0] == '$' && forall k :: 1 <= k < |m| ==> IsDigit(m[k]))
  }

  ghost predicate MarksWith(f: string -> string, dollar: bool) {
    forall n :: IsMark(f(n)) && (f(n)[0] == '$' <==> dollar)
  }

  function Spell(t: string): (ps: seq<Piece>) {
    if t == "" then [] else [Plain(t[0])] + Spell(t[1..])
  }

  /** The pieces of the output, if scanning it finds every region of the input again and no parameter. */
  function Relabel(ps: seq<Piece>, f: string -> string): seq<Piece> {
    if ps == [] then []
    else (if ps[0].Param? then Spell(f(ps[0].name)) else [ps[0]]) + Relabel(ps[1..], f)
  }

  /** Name characters in code that run straight into a parameter. */
  predicate RunsIntoParam(ps: seq<Piece>, first: bool) {
    && ps != []
    && (ps[0].Param?
        || (ps[0].Plain? && (if first then IsNameStart(ps[0].c) else IsIdent(ps[0].c))
            && RunsIntoParam(ps[1..], false)))
  }

  /**
   Somewhere in code a lone dollar is followed, directly or after what could be a tag name, by
   a parameter. The dollar of the placeholder then completes a dollar-quote tag.
   */
  predicate FormsTag(ps: seq<Piece>) {
    ps != [] && ((ps[0] == Plain('$') && RunsIntoParam(ps[1..], true)) || FormsTag(ps[1..]))
  }

  /** The tail of a dollar-quote tag: name characters, then a dollar. */
  predicate TagTail(r: string, first: bool) {
    && r != ""
    && (r[0] == '$' || ((if first then IsNameStart(r[0]) else IsIdent(r[0])) && TagTail(r[1..], false)))
  }

  lemma {:induction false} TagTailScan(s: string, j: nat, first: bool)
    requires j <= |s|
    ensures var e := NameEnd(s, j);
            TagTail(s[j..], first) <==> e < |s| && s[e] == '$' && (first && j < e ==> IsNameStart(s[j]))
    decreases |s| - j
  {
    if j < |s| && IsIdent(s[j]) {
      TagTailScan(s, j + 1, false);
      assert s[j..][1..] == s[j + 1..];
    }
  }

  lemma TagLengthTail(r: string)
    ensures TagLength("$" + r).Some? <==> TagTail(r, true)
  {
    var s := "$" + r;
    TagTailScan(s, 1, true);
    assert s[1..] == r;
  }

  /** The text that follows a piece. */
  function Rest(s: string): (r: string)
    requires s != ""
    ensures s == Source(Head(s)) + r && |r| < |s|
  {
    HeadIsPrefix(s);
    s[|Source(Head(s))|..]
  }

  /** How the rendering of a statement begins. */
  lemma FirstChar(s: string, f: string -> string, dollar: bool)
    requires MarksWith(f, dollar)
    ensures s == "" ==> Render(Pieces(s), f) == ""
    ensures s != "" ==> Render(Pieces(s), f) == RenderPiece(Head(s), f) + Render(Pieces(Rest(s)), f)
    ensures s != "" ==>
              var y := Render(Pieces(s), f);
              y != "" && y[0] == if Head(s).Param? then (if dollar then '$' else '?') else s[0]
  {
    if s != "" {
      assert Pieces(s) == [Head(s)] + Pieces(Rest(s));
      var p := Head(s);
      assert RenderPiece(p, f) != "" && RenderPiece(p, f)[0] == if p.Param? then f(p.name)[0] else s[0];
    }
  }

  lemma IdentHead(s: string)
    requires s != "" && IsIdent(s[0])
    ensures Head(s) == Plain(s[0]) && Rest(s) == s[1..]
  {
  }

  /** After a lone dollar, the rendering forms a tag where the source did, or where it runs into a parameter. */
  lemma {:induction false} TagTailRendered(s: string, first: bool, f: string -> string, dollar: bool)
    requires MarksWith(f, dollar)
    ensures TagTail(Render(Pieces(s), f), first) <==> TagTail(s, first) || (dollar && RunsIntoParam(Pieces(s), first))
    decreases |s|
  {
    FirstChar(s, f, dollar);
    if s != "" {
      var y := Render(Pieces(s), f);
      assert Pieces(s)[0] == Head(s) && Pieces(s)[1..] == Pieces(Rest(s));
      if IsIdent(s[0]) {
        IdentHead(s);
        TagTailRendered(s[1..], false, f, dollar);
        assert y[1..] == Render(Pieces(s[1..]), f);
      }
    }
  }

  lemma PlainHead(s: string)
    requires s != "" && (IsDigit(s[0]) || s[0] == '?' || (s[0] == '$' && TagLength(s).None?))
    ensures Head(s) == Plain(s[0])
  {
  }

  lemma RegroupPieces(p: Piece, a: seq<Piece>, z: seq<Piece>)
    ensures [p] + (a + z) == ([p] + a) + z
  {
  }

  lemma PlainStep(s: string, rest: string)
    requires s != "" && (IsDigit(s[0]) || s[0] == '?' || (s[0] == '$' && TagLength(s).None?)) && s[1..] == rest
    ensures Pieces(s) == [Plain(s[0])] + Pieces(rest)
  {
    PlainHead(s);
    PiecesUnfold(s, Plain(s[0]), rest);
  }

  lemma {:induction false} SpellLex(s: string, d: string, y: string, zs: seq<Piece>)
    requires forall k :: 0 <= k < |d| ==> IsDigit(d[k])
    requires s == d + y && zs == Pieces(y)
    ensures Pieces(s) == Spell(d) + zs
    decreases |d|
  {
    if d == "" {
      assert s == y;
    } else {
      var s', d' := s[1..], d[1..];
      SpellLex(s', d', y, zs);
      PlainStep(s, s');
      RegroupPieces(Plain(d[0]), Spell(d'), zs);
    }
  }

  lemma MarkStart(s: string, m: string)
    requires IsMark(m) && m <= s
    ensures s != "" && (s[0] == '?' || (s[0] == '$' && TagLength(s).None?))
  {
    if m[0] == '$' {
      assert s[1] == m[1] && IsDigit(s[1]);
      assert NameEnd(s, 1) == NameEnd(s, 2);
    }
  }

  lemma MarkParts(s: string, m: string, y: string)
    requires IsMark(m) && s == m + y
    ensures m <= s && s[1..] == m[1..] + y && s[0] == m[0]
    ensures forall k :: 0 <= k < |m[1..]| ==> IsDigit(m[1..][k])
    ensures Spell(m) == [Plain(s[0])] + Spell(m[1..])
  {
  }

  /** A placeholder scans as plain bytes, whatever follows it. */
  lemma MarkLex(s: string, m: string, y: string, zs: seq<Piece>)
    requires IsMark(m)
    requires s == m + y && zs == Pieces(y)
    ensures Pieces(s) == Spell(m) + zs
  {
    MarkParts(s, m, y);
    var s', d := s[1..], m[1..];
    SpellLex(s', d, y, zs);
    MarkStart(s, m);
    PlainStep(s, s');
    RegroupPieces(Plain(s[0]), Spell(d), zs);
  }

  lemma {:induction false} QuoteEndStays(s: string, j: nat, quote: char, z: string)
    requires j <= |s|
    requires QuoteEnd(s, j, quote) == |s| ==> z == ""
    ensures var e := QuoteEnd(s, j, quote); QuoteEnd(s[..e] + z, j, quote) == e
    decreases |s| - j
  {
    if j < |s| && s[j] != quote {
      QuoteEndStays(s, j + 1, quote, z);
    }
  }

  lemma {:induction false} BlockEndStays(s: string, j: nat, z: string)
    requires j <= |s|
    requires BlockEnd(s, j) == |s| ==> z == ""
    ensures var e := BlockEnd(s, j); BlockEnd(s[..e] + z, j) == e
    decreases |s| - j
  {
    var e := BlockEnd(s, j);
    if e == |s| {
      assert s[..e] + z == s;
    } else if j + 1 < |s| {
      if !(s[j] == '*' && s[j + 1] == '/') {
        BlockEndStays(s, j + 1, z);
        BlockEndRoom(s, j + 1);
      }
    }
  }

  lemma {:induction false} BlockEndRoom(s: string, j: nat)
    requires j <= |s| && BlockEnd(s, j) < |s|
    ensures j + 2 <= BlockEnd(s, j)
    decreases |s| - j
  {
    if j + 1 < |s| && !(s[j] == '*' && s[j + 1] == '/') {
      BlockEndRoom(s, j + 1);
    }
  }

  lemma {:induction false} TagEndStays(s: string, j: nat, tag: string, z: string)
    requires j <= |s| && 0 < |tag|
    requires TagEnd(s, j, tag) == |s| ==> z == ""
    ensures var e := TagEnd(s, j, tag); TagEnd(s[..e] + z, j, tag) == e
    decreases |s| - j
  {
    var e := TagEnd(s, j, tag);
    var t := s[..e] + z;
    if z == "" && e == |s| {
      assert t == s;
    } else if j < |s| {
      if HasAt(s, j, tag) {
        assert t[j..j + |tag|] == s[j..j + |tag|];
      } else {
        TagEndStays(s, j + 1, tag, z);
        TagEndRoom(s, j + 1, tag);
        assert t[j..j + |tag|] == s[j..j + |tag|];
      }
    }
  }

  lemma {:induction false} TagEndRoom(s: string, j: nat, tag: string)
    requires j <= |s| && TagEnd(s, j, tag) < |s|
    ensures j + |tag| <= TagEnd(s, j, tag)
    decreases |s| - j
  {
    if j < |s| && !HasAt(s, j, tag) {
      TagEndRoom(s, j + 1, tag);
    }
  }

  /** `s` begins with the piece `p` and goes on with `r`; `z` is what follows `p` once rendered. */
  ghost predicate Follows(s: string, p: Piece, r: string, z: string, f: string -> string, dollar: bool) {
    && s != "" && p == Head(s) && r == Rest(s)
    && MarksWith(f, dollar)
    && z == Render(Pieces(r), f)
  }

  lemma TextPrefix(s: string, text: string, n: nat, z: string)
    requires n <= |text| <= |s| && s[..|text|] == text
    ensures (text + z)[..n] == s[..n] && forall k :: 0 <= k < |text| ==> (text + z)[k] == s[k]
  {
    assert forall k :: 0 <= k < |text| ==> s[k] == s[..|text|][k];
  }

  lemma NothingLeft(s: string, f: string -> string)
    requires s != "" && |Source(Head(s))| == |s|
    ensures Rest(s) == "" && Render(Pieces(Rest(s)), f) == ""
  {
  }

  lemma QuotedStays(s: string, p: Piece, r: string, z: string, f: string -> string, dollar: bool)
    requires Follows(s, p, r, z, f, dollar) && (s[0] == '\'' || s[0] == '"')
    ensures Head(Source(p) + z) == p
  {
    var e := QuoteEnd(s, 1, s[0]);
    if e == |s| {
      NothingLeft(s, f);
    }
    QuoteEndStays(s, 1, s[0], z);
    TextPrefix(s, s[..e], e, z);
  }

  lemma LineStays(s: string, p: Piece, r: string, z: string, f: string -> string, dollar: bool)
    requires Follows(s, p, r, z, f, dollar) && Starts(s, '-', '-')
    ensures Head(Source(p) + z) == p
  {
    var e := QuoteEnd(s, 2, '\n');
    if e == |s| {
      NothingLeft(s, f);
    }
    QuoteEndStays(s, 2, '\n', z);
    TextPrefix(s, s[..e], e, z);
  }

  lemma BlockStays(s: string, p: Piece, r: string, z: string, f: string -> string, dollar: bool)
    requires Follows(s, p, r, z, f, dollar) && Starts(s, '/', '*')
    ensures Head(Source(p) + z) == p
  {
    var e := BlockEnd(s, 2);
    if e == |s| {
      NothingLeft(s, f);
    }
    BlockEndStays(s, 2, z);
    TextPrefix(s, s[..e], e, z);
  }

  lemma {:induction false} NameEndStays(s: string, t: string, j: nat)
    requires j <= |s| && NameEnd(s, j) < |t| && NameEnd(s, j) < |s|
    requires forall k :: j <= k <= NameEnd(s, j) ==> t[k] == s[k]
    ensures NameEnd(t, j) == NameEnd(s, j)
    decreases |s| - j
  {
    if j < NameEnd(s, j) {
      NameEndStays(s, t, j + 1);
    }
  }

  lemma TaggedStays(s: string, p: Piece, r: string, z: string, f: string -> string, dollar: bool)
    requires Follows(s, p, r, z, f, dollar) && TagLength(s).Some?
    ensures Head(Source(p) + z) == p
  {
    var n := TagLength(s).value;
    var e := TagEnd(s, n, s[..n]);
    var t := s[..e] + z;
    if e == |s| {
      NothingLeft(s, f);
    }
    TextPrefix(s, s[..e], n, z);
    NameEndStays(s, t, 1);
    assert TagLength(t) == Some(n);
    TagEndStays(s, n, s[..n], z);
    TextPrefix(s, s[..e], e, z);
  }

  /** No comment, cast or parameter begins here, and no quote. */
  predicate OrdinaryStart(s: string) {
    && s != "" && s[0] != '\'' && s[0] != '"' && s[0] != '$'
    && !Starts(s, '-', '-') && !Starts(s, '/', '*') && !Starts(s, ':', ':')
    && !(s[0] == ':' && 2 <= |s| && IsNameStart(s[1]))
  }

  lemma OrdinaryIsPlain(s: string)
    requires OrdinaryStart(s)
    ensures Head(s) == Plain(s[0])
  {
  }

  lemma PlainIsOrdinary(s: string)
    requires s != "" && s[0] != '$' && Head(s).Plain?
    ensures OrdinaryStart(s) && Source(Head(s)) == [s[0]]
  {
  }

  /** The byte after a piece stays, or the placeholder of a parameter stands in its place. */
  lemma NextByte(s: string, p: Piece, r: string, z: string, f: string -> string, dollar: bool)
    requires Follows(s, p, r, z, f, dollar)
    ensures r == "" <==> z == ""
    ensures r != "" ==> z[0] == r[0] || (r[0] == ':' && 2 <= |r| && IsNameStart(r[1]) && (z[0] == '$' || z[0] == '?'))
  {
    FirstChar(r, f, dollar);
    if r != "" && Head(r).Param? {
      ParamStartsWithColon(r);
    }
  }

  lemma ParamStartsWithColon(r: string)
    requires r != "" && Head(r).Param?
    ensures r[0] == ':' && 2 <= |r| && IsNameStart(r[1])
  {
  }

  /** A code byte keeps its reading: no placeholder begins like a colon, dash, star or name. */
  lemma PlainStays(s: string, p: Piece, r: string, z: string, f: string -> string, dollar: bool)
    requires Follows(s, p, r, z, f, dollar) && p.Plain? && s[0] != '$'
    ensures Head(Source(p) + z) == p
  {
    PlainIsOrdinary(s);
    NextByte(s, p, r, z, f, dollar);
    SecondByte(s, s[0], r, z);
    OrdinaryIsPlain([s[0]] + z);
  }

  lemma SecondByte(s: string, c: char, r: string, z: string)
    requires s == [c] + r && OrdinaryStart(s) && (r == "" <==> z == "")
    requires r != "" ==> z[0] == r[0] || z[0] == '$' || z[0] == '?'
    ensures OrdinaryStart([c] + z)
  {
    if r != "" {
      assert s[1] == r[0] && ([c] + z)[1] == z[0];
    }
  }

  lemma CastStays(s: string, p: Piece, r: string, z: string, f: string -> string, dollar: bool)
    requires Follows(s, p, r, z, f, dollar) && p.Cast?
    ensures Head(Source(p) + z) == p
  {
    var t := Source(p) + z;
    assert t[0] == ':' && t[1] == ':';
  }

  /** A lone dollar keeps its reading exactly when it does not run into a parameter marked by a dollar. */
  lemma DollarStays(s: string, p: Piece, r: string, z: string, f: string -> string, dollar: bool)
    requires Follows(s, p, r, z, f, dollar) && s[0] == '$' && TagLength(s).None?
    ensures Head(Source(p) + z) == p <==> !(dollar && RunsIntoParam(Pieces(r), true))
    ensures p == Plain('$')
  {
    assert Head(s) == Plain('$');
    assert s == "$" + r;
    TagLengthTail(r);
    TagLengthTail(z);
    TagTailRendered(r, true, f, dollar);
    DollarHead(z);
  }

  lemma DollarHead(z: string)
    ensures Head("$" + z) == Plain('$') <==> TagLength("$" + z).None?
  {
  }

  /** Rendering keeps the first piece, unless that is a dollar about to form a tag. */
  lemma HeadStays(s: string, f: string -> string, dollar: bool)
    requires s != "" && MarksWith(f, dollar) && !Head(s).Param?
    ensures var p := Head(s);
            Head(Source(p) + Render(Pieces(Rest(s)), f)) == p <==>
            !(dollar && p == Plain('$') && RunsIntoParam(Pieces(Rest(s)), true))
  {
    var p, r := Head(s), Rest(s);
    var z := Render(Pieces(r), f);
    if s[0] == '\'' || s[0] == '"' {
      QuotedStays(s, p, r, z, f, dollar);
    } else if Starts(s, '-', '-') {
      LineStays(s, p, r, z, f, dollar);
    } else if Starts(s, '/', '*') {
      BlockStays(s, p, r, z, f, dollar);
    } else if TagLength(s).Some? {
      TaggedStays(s, p, r, z, f, dollar);
    } else if s[0] == '$' {
      DollarStays(s, p, r, z, f, dollar);
    } else if p.Cast? {
      CastStays(s, p, r, z, f, dollar);
    } else {
      PlainStays(s, p, r, z, f, dollar);
    }
  }

  lemma SamePrefix(a: seq<Piece>, x: seq<Piece>, y: seq<Piece>)
    ensures a + x == a + y <==> x == y
  {
    if a + x == a + y {
      assert x == (a + x)[|a|..];
      assert y == (a + y)[|a|..];
    }
  }

  lemma RescanParam(m: string, qs: seq<Piece>, z: string, expected: seq<Piece>)
    requires IsMark(m)
    ensures Pieces(m + z) == Spell(m) + expected <==> Pieces(z) == expected
  {
    MarkLex(m + z, m, z, Pieces(z));
    SamePrefix(Spell(m), Pieces(z), expected);
  }

  lemma RescanPiece(p: Piece, z: string, expected: seq<Piece>)
    requires Source(p) != ""
    ensures Pieces(Source(p) + z) == [p] + expected <==> Head(Source(p) + z) == p && Pieces(z) == expected
  {
    var s := Source(p) + z;
    if Head(s) == p {
      assert s[|Source(p)|..] == z;
      PiecesUnfold(s, p, z);
      SamePrefix([p], Pieces(z), expected);
    } else {
      FirstPiece(s);
    }
  }

  lemma FirstPiece(s: string)
    requires s != ""
    ensures Pieces(s) != [] && Pieces(s)[0] == Head(s)
  {
  }

  lemma RelabelStep(s: string, f: string -> string)
    requires s != ""
    ensures var p, qs := Head(s), Pieces(Rest(s));
            && Render(Pieces(s), f) == RenderPiece(p, f) + Render(qs, f)
            && Relabel(Pieces(s), f) == (if p.Param? then Spell(f(p.name)) else [p]) + Relabel(qs, f)
            && (FormsTag(Pieces(s)) <==> (p == Plain('$') && RunsIntoParam(qs, true)) || FormsTag(qs))
            && Source(p) != ""
  {
    var p, qs := Head(s), Pieces(Rest(s));
    PiecesUnfold(s, p, Rest(s));
    assert ([p] + qs)[1..] == qs;
  }
}
