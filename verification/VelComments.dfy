/** Comments after expressions. */
module VelComments {
  // The documentation allows a comment after any expression; the code takes a call to end at the last `)`
  // of the line, so a `)` inside the comment is read as the call's own.

  import opened Common
  import opened Numerals
  import opened TextSearch
  import opened VelParse
  import opened VelProofs

  // -------------------------------------------------------------------- trimming

  /** The first character that is not white stands at `k`. */
  predicate VisibleAt(s: string, k: nat) {
    k < |s| && !IsTrimSpace(s[k]) && forall j :: 0 <= j < k ==> IsTrimSpace(s[j])
  }

  lemma TrimFrom(s: string, i: nat) returns (e: nat)
    requires VisibleAt(s, i)
    ensures i < e <= |s| && Trim(s) == s[i..e]
    ensures forall k :: e <= k < |s| ==> IsTrimSpace(s[k])
  {
    TrimStartIs(s, 0, i);
    e := TrimEnd(s, i, |s|);
    TrimEndSkips(s, i, |s|);
  }

  /** Where the text that trimming leaves begins. */
  lemma FirstVisible(s: string) returns (i: nat)
    requires Trim(s) != ""
    ensures VisibleAt(s, i) && Trim(s)[0] == s[i]
  {
    i := TrimStart(s, 0);
    TrimStartSkips(s, 0);
  }

  /** Trimming a text that goes on visibly keeps all it kept before, and what makes it go on. */
  lemma TrimGrows(s: string, y: string, m: nat) returns (z: string, k: nat)
    requires Trim(s) != "" && VisibleAt(y, m)
    ensures Trim(s + y) == Trim(s) + z && VisibleAt(z, k) && z[k] == y[m]
  {
    var i := FirstVisible(s);
    var t := s + y;
    var e := TrimFrom(s, i);
    assert VisibleAt(t, i);
    var e' := TrimFrom(t, i);
    assert t[|s| + m] == y[m];
    z, k := t[e..e'], |s| - e + m;
    Between(s, y, e, e', m);
    assert t[i..e'] == s[i..e] + z;
  }

  lemma Between(s: string, y: string, e: nat, e': nat, m: nat)
    requires e <= |s| && VisibleAt(y, m) && |s| + m < e' <= |s| + |y|
    requires forall k :: e <= k < |s| ==> IsTrimSpace(s[k])
    ensures var z := (s + y)[e..e']; VisibleAt(z, |s| - e + m) && z[|s| - e + m] == y[m]
  {
    var z, k := (s + y)[e..e'], |s| - e + m;
    forall j | 0 <= j < k ensures IsTrimSpace(z[j]) {
      assert z[j] == if e + j < |s| then s[e + j] else y[e + j - |s|];
    }
  }

  lemma TrimHolds(s: string, k: nat)
    requires k < |s| && !IsTrimSpace(s[k])
    ensures s[k] in Trim(s)
  {
    var i := TrimStart(s, 0);
    TrimStartSkips(s, 0);
    var e := TrimEnd(s, i, |s|);
    TrimEndSkips(s, i, |s|);
    assert i <= k < e;
    assert s[i..e][k - i] == s[k];
  }

  // ------------------------------------------------------------------ longer tails

  /** What a comment puts behind an expression. */
  predicate CommentTail(x: string, m: nat) {
    VisibleAt(x, m) && x[m] == '#'
  }

  lemma TailStaysAllowed(tail: string, x: string, m: nat)
    requires TailAllowed(tail) && CommentTail(x, m)
    ensures TailAllowed(tail + x)
  {
    var t := tail + x;
    if Trim(tail) == "" {
      AllWhite(tail);
      assert VisibleAt(t, |tail| + m);
      var e := TrimFrom(t, |tail| + m);
    } else {
      var i := FirstVisible(tail);
      assert VisibleAt(t, i);
      var e := TrimFrom(t, i);
    }
  }

  lemma {:induction false} FindInFront(e: string, x: string, c: char, i: nat)
    requires i <= |e| && Find(e, c, i) < |e|
    ensures Find(e + x, c, i) == Find(e, c, i)
    decreases |e| - i
  {
    assert (e + x)[i] == e[i];
    if e[i] != c {
      FindInFront(e, x, c, i + 1);
    }
  }

  lemma SlicesInFront(e: string, x: string, q: nat)
    requires 1 <= q < |e|
    ensures (e + x)[1..q] == e[1..q] && (e + x)[q + 1..] == e[q + 1..] + x && (e + x)[0] == e[0]
  {
  }

  lemma LiteralWithTail(name: string, e: string, x: string, m: nat)
    requires e != "" && e[0] == '"' && ParseTrimmed(name, e).Ok? && CommentTail(x, m)
    ensures ParseTrimmed(name, e + x) == ParseTrimmed(name, e)
  {
    FindInFront(e, x, '"', 1);
    SlicesInFront(e, x, Find(e, '"', 1));
    TailStaysAllowed(e[Find(e, '"', 1) + 1..], x, m);
  }

  lemma ParensStay(e: string, x: string)
    requires ')' !in x && Find(e, '(', 0) < |e| && 0 < FindLast(e, ')', |e|)
    ensures Find(e + x, '(', 0) == Find(e, '(', 0)
    ensures FindLast(e + x, ')', |e + x|) == FindLast(e, ')', |e|)
  {
    var open, after, t := Find(e, '(', 0), FindLast(e, ')', |e|), e + x;
    FindSkips(e, '(', 0);
    FindIs(t, '(', 0, open);
    FindLastSkips(e, ')', |e|);
    forall k | after <= k < |t| ensures t[k] != ')' {
      assert t[k] == if k < |e| then e[k] else x[k - |e|];
    }
    FindLastIs(t, ')', |t|, after);
  }

  /** A comment without `)` leaves the call where it was. */
  lemma CallWithTail(e: string, x: string, m: nat)
    requires CallParts(e).Ok? && CommentTail(x, m) && ')' !in x
    ensures CallParts(e + x) == CallParts(e)
  {
    var open, after, t := Find(e, '(', 0), FindLast(e, ')', |e|), e + x;
    ParensStay(e, x);
    PrefixSlices(e, x, open, after);
    TailStaysAllowed(e[after..], x, m);
    CallPartsAre(e, open, after);
    CallPartsAre(t, open, after);
  }

  lemma PrefixSlices(e: string, x: string, open: nat, after: nat)
    requires open + 1 < after <= |e|
    ensures (e + x)[..open] == e[..open] && (e + x)[open + 1..after - 1] == e[open + 1..after - 1]
    ensures (e + x)[after..] == e[after..] + x
  {
  }

  lemma CallPartsAre(e: string, open: nat, after: nat)
    requires open + 1 < after <= |e| && open < |e| && open == Find(e, '(', 0) && after == FindLast(e, ')', |e|)
    requires TailAllowed(e[after..])
    ensures CallParts(e) == Ok((e[..open], e[open + 1..after - 1]))
  {
  }

  /** A comment with a `)` lengthens the call's arguments, first of all by the call's own `)`. */
  lemma CallRunsOn(e: string, x: string) returns (w: string)
    requires CallParts(e).Ok? && ')' in x && CallParts(e + x).Ok?
    ensures CallParts(e + x).value == (CallParts(e).value.0, CallParts(e).value.1 + (")" + w))
  {
    var open, after, t := Find(e, '(', 0), FindLast(e, ')', |e|), e + x;
    FindSkips(e, '(', 0);
    FindIs(t, '(', 0, open);
    var after' := LaterParen(e, x);
    w := t[after..after' - 1];
    ArgumentsGrow(e, x, open, after, after');
  }

  lemma LaterParen(e: string, x: string) returns (after: nat)
    requires ')' in x
    ensures after == FindLast(e + x, ')', |e + x|) && |e| < after
  {
    var t := e + x;
    var k :| 0 <= k < |x| && x[k] == ')';
    assert t[|e| + k] == ')';
    FindLastSkips(t, ')', |t|);
    after := FindLast(t, ')', |t|);
  }

  lemma ArgumentsGrow(e: string, x: string, open: nat, after: nat, after': nat)
    requires open + 1 < after <= |e| < after' <= |e| + |x| && e[after - 1] == ')'
    ensures (e + x)[..open] == e[..open]
    ensures (e + x)[open + 1..after' - 1] == e[open + 1..after - 1] + (")" + (e + x)[after..after' - 1])
  {
    var t := e + x;
    assert t[open + 1..after' - 1] == t[open + 1..after - 1] + [t[after - 1]] + t[after..after' - 1];
    assert t[open + 1..after - 1] == e[open + 1..after - 1];
  }

  // --------------------------------------------------------------- longer arguments

  /** Parts of which all but the last stay, and the last goes on with `y`. */
  predicate PartsGrow(p: seq<string>, q: seq<string>, y: string) {
    && 0 < |p| <= |q|
    && (forall k :: 0 <= k < |p| - 1 ==> q[k] == p[k])
    && q[|p| - 1] == p[|p| - 1] + y
  }

  lemma PartsGrowMore(h: string, p: seq<string>, q: seq<string>, y: string)
    requires PartsGrow(p, q, y)
    ensures PartsGrow([h] + p, [h] + q, y)
  {
  }

  /** When a text goes on, so does its last part, up to the next separator. */
  lemma {:induction false} SplitGrows(t: string, z: string, c: char, i: nat, y: string)
    requires i <= |t| && y == z[..Find(z, c, 0)]
    ensures PartsGrow(SplitFrom(t, c, i), SplitFrom(t + z, c, i), y)
    decreases |t| - i
  {
    var e, s := Find(t, c, i), t + z;
    if e == |t| {
      FindOn(t, z, c, i);
      LastPartGrows(t, z, c, i);
    } else {
      FindSkips(t, c, i);
      FindIs(s, c, i, e);
      SplitGrows(t, z, c, e + 1, y);
      assert s[i..e] == t[i..e];
      PartsGrowMore(t[i..e], SplitFrom(t, c, e + 1), SplitFrom(s, c, e + 1), y);
    }
  }

  lemma LastPartGrows(t: string, z: string, c: char, i: nat)
    requires i <= |t| && Find(t, c, i) == |t| && Find(t + z, c, i) == |t| + Find(z, c, 0)
    ensures SplitFrom(t, c, i) == [t[i..]] && SplitFrom(t + z, c, i)[0] == t[i..] + z[..Find(z, c, 0)]
  {
    var s, f := t + z, Find(z, c, 0);
    assert s[i..|t| + f] == t[i..] + z[..f];
    if f == |z| {
      assert s[i..] == s[i..|t| + f];
    }
  }

  lemma FindOn(t: string, z: string, c: char, i: nat)
    requires i <= |t| && Find(t, c, i) == |t|
    ensures Find(t + z, c, i) == |t| + Find(z, c, 0)
  {
    var s, r := t + z, |t| + Find(z, c, 0);
    FindSkips(t, c, i);
    FindSkips(z, c, 0);
    forall k | i <= k < r ensures s[k] != c {
      assert s[k] == if k < |t| then t[k] else z[k - |t|];
    }
    FindIs(s, c, i, r);
  }

  lemma NoNumber(a: string)
    requires ')' in a
    ensures ParseU64(a).None?
  {
    var digits := if a[0] == '+' then a[1..] else a;
    assert ')' in digits by {
      var k :| 0 <= k < |a| && a[k] == ')';
      assert digits[if a[0] == '+' then k - 1 else k] == ')';
    }
  }

  lemma NotBefore(z: string, k: nat)
    requires VisibleAt(z, k) && z[k] == ')'
    ensures k < Find(z, ',', 0) && VisibleAt(z[..Find(z, ',', 0)], k)
  {
    var f := Find(z, ',', 0);
    FindSkips(z, ',', 0);
    assert f < |z| ==> !IsTrimSpace(z[f]) && z[f] != ')';
  }

  /** The last argument of the lengthened call is the old one going on with `y`, which holds a `)`. */
  lemma LastArgument(args: string, w: string) returns (last: string, y: string, k: nat)
    requires Trim(args) != ""
    ensures var short, long := Arguments(args), Arguments(args + (")" + w));
            && 0 < |short| <= |long|
            && short[|short| - 1] == Trim(last) && long[|short| - 1] == Trim(last + y)
    ensures VisibleAt(y, k) && y[k] == ')'
  {
    var t := Trim(args);
    var z: string;
    z, k := TrimGrows(args, ")" + w, 0);
    y := z[..Find(z, ',', 0)];
    SplitGrows(t, z, ',', 0, y);
    NotBefore(z, k);
    var p := SplitFrom(t, ',', 0);
    last := p[|p| - 1];
  }

  /** Whatever the lengthened call is read as, it is not the call. */
  lemma LongerCall(name: string, f: string, args: string, w: string)
    requires ParseCall(name, f, Arguments(args)).Ok?
    ensures ParseCall(name, f, Arguments(args + (")" + w))) != ParseCall(name, f, Arguments(args))
  {
    var last, y, k := LastArgument(args, w);
    LongerArguments(name, f, Arguments(args), Arguments(args + (")" + w)), last, y, k);
  }

  lemma LongerArguments(name: string, f: string, short: seq<string>, long: seq<string>, last: string, y: string, k: nat)
    requires ParseCall(name, f, short).Ok? && 0 < |short| <= |long|
    requires short[|short| - 1] == Trim(last) && long[|short| - 1] == Trim(last + y)
    requires VisibleAt(y, k) && y[k] == ')'
    ensures ParseCall(name, f, long) != ParseCall(name, f, short)
  {
    if |short| == 2 {
      assert (last + y)[|last| + k] == ')';
      TrimHolds(last + y, |last| + k);
      SecondDiffers(name, f, long);
    } else {
      GoodPrefix(name, f, short);
      var z, j := TrimGrows(last, y, k);
      ThirdDiffers(name, f, short, long);
    }
  }

  lemma SecondDiffers(name: string, f: string, long: seq<string>)
    requires 2 <= |long| && ')' in long[1]
    ensures ParseCall(name, f, long).Err?
  {
    NoNumber(long[1]);
  }

  lemma GoodPrefix(name: string, f: string, args: seq<string>)
    requires ParseCall(name, f, args).Ok? && |args| != 2
    ensures |args| == 3 && 2 <= |args[2]| && |ParseCall(name, f, args).value.prefix| == |args[2]| - 2
  {
  }

  lemma ThirdDiffers(name: string, f: string, short: seq<string>, long: seq<string>)
    requires |short| == 3 <= |long| && |short[2]| < |long[2]| && ParseCall(name, f, short).Ok?
    ensures ParseCall(name, f, long) != ParseCall(name, f, short)
  {
    GoodPrefix(name, f, short);
    if ParseCall(name, f, long).Ok? {
      GoodPrefix(name, f, long);
    }
  }

  // ---------------------------------------------------------------------- theorem

  /** The line's text once trimmed: the comment loses its white end. */
  lemma CommentTrimmed(e: string, gap: string, comment: string) returns (kept: string)
    requires Tight(e) && White(gap)
    ensures Trim(e + gap + "#" + comment) == e + (gap + "#" + kept)
    ensures ')' in comment <==> ')' in gap + "#" + kept
  {
    var x := e + gap + "#" + comment;
    var b := |e| + |gap|;
    assert x[0] == e[0] && x[b] == '#';
    assert VisibleAt(x, 0);
    var end := TrimFrom(x, 0);
    kept := comment[..end - b - 1];
    assert x[..end] == e + (gap + "#" + kept);
    forall k | |kept| <= k < |comment| ensures comment[k] != ')' {
      assert x[b + 1 + k] == comment[k];
    }
    SameParens(gap, kept, comment);
  }

  lemma SameParens(gap: string, kept: string, comment: string)
    requires White(gap) && kept <= comment && forall k :: |kept| <= k < |comment| ==> comment[k] != ')'
    ensures ')' in comment <==> ')' in gap + "#" + kept
  {
    if ')' in comment {
      var k :| 0 <= k < |comment| && comment[k] == ')';
      assert (gap + "#" + kept)[|gap| + 1 + k] == ')';
    }
  }

  /**
   A comment after an expression is ignored exactly when the expression is a literal or the comment holds
   no `)`; this goes for every expression the parser accepts, however it is written.
   */
  lemma CommentIgnoredIff(name: string, e: string, gap: string, comment: string)
    requires Tight(e) && ParseTrimmed(name, e).Ok? && White(gap)
    ensures ParseExpr(name, e + gap + "#" + comment) == ParseExpr(name, e) <==> e[0] == '"' || ')' !in comment
  {
    TrimSame(e);
    var kept := CommentTrimmed(e, gap, comment);
    var x := gap + "#" + kept;
    assert CommentTail(x, |gap|);
    if e[0] == '"' {
      LiteralWithTail(name, e, x, |gap|);
    } else {
      assert (e + x)[0] == e[0];
      if ')' !in comment {
        CallWithTail(e, x, |gap|);
      } else if CallParts(e + x).Ok? {
        var w := CallRunsOn(e, x);
        LongerCall(name, Trim(CallParts(e).value.0), CallParts(e).value.1, w);
      }
    }
  }

  lemma ShortNumbers()
    ensures ParseU64("240") == Some(240) && ParseU64("15") == Some(15)
  {
    assert "240"[..2] == "24" && "24"[..1] == "2" && "2"[..0] == "" && "15"[..1] == "1" && "1"[..0] == "";
    assert ParseDecimal("2") == 2 && ParseDecimal("24") == 24 && ParseDecimal("240") == 240;
    assert ParseDecimal("1") == 1 && ParseDecimal("15") == 15;
    assert AllDigits("240") && AllDigits("15");
  }

  lemma TwoParts(t: string)
    requires t == "240, 15"
    ensures SplitFrom(t, ',', 0) == ["240", " 15"] && Trim(t) == t
  {
    TrimSame(t);
    SplitFirst(t, ',', 0, 3);
    SplitLast(t, ',', 4);
    assert t[0..3] == "240" && t[4..] == " 15";
  }

  lemma TrimmedPair(a: string, b: string)
    requires Tight(a) && Tight(b)
    ensures TrimAll([a, " " + b]) == [a, b]
  {
    TrimSame(a);
    TrimPadded(b);
  }

  lemma TwoArguments(t: string)
    requires t == "240, 15"
    ensures Arguments(t) == ["240", "15"]
  {
    TwoParts(t);
    TrimmedPair("240", "15");
    assert " 15" == " " + "15";
  }

  lemma CallOf(name: string, e: string, f: string, text: string, args: seq<string>)
    requires e != "" && e[0] != '"' && CallParts(e) == Ok((f, text)) && Trim(f) == f && Arguments(text) == args
    ensures ParseTrimmed(name, e) == ParseCall(name, f, args)
  {
  }

  lemma DocumentedParts(e: string, f: string, text: string)
    requires e == "phase_now(240, 15)" && f == "phase_now" && text == "240, 15"
    ensures CallParts(e) == Ok((f, text)) && Trim(f) == f && Tight(e)
  {
    EmptyTail();
    CallReads(f, text, "");
    assert e == f + "(" + text + ")" + "";
  }

  lemma DocumentedNumbers(args: seq<string>)
    requires args == ["240", "15"]
    ensures ParseCall("cur", "phase_now", args) == Ok(PhaseBucket("cur", 240, 15, 0, "p"))
  {
    ShortNumbers();
  }

  /** The documented call with two arguments. */
  lemma DocumentedCall(e: string)
    requires e == "phase_now(240, 15)"
    ensures ParseTrimmed("cur", e) == Ok(PhaseBucket("cur", 240, 15, 0, "p")) && Tight(e) && e[0] == 'p'
  {
    var f, text := "phase_now", "240, 15";
    var args := ["240", "15"];
    DocumentedParts(e, f, text);
    TwoArguments(text);
    DocumentedNumbers(args);
    CallOf("cur", e, f, text, args);
  }

  lemma EmptyTail()
    ensures TailAllowed("")
  {
  }

  lemma ParenSpoils(name: string, e: string, gap: string, comment: string)
    requires Tight(e) && ParseTrimmed(name, e).Ok? && White(gap) && e[0] != '"' && ')' in comment
    ensures ParseExpr(name, e + gap + "#" + comment) != ParseExpr(name, e)
  {
    CommentIgnoredIff(name, e, gap, comment);
  }

  /** The documented call is read, and with any `)` in its comment it no longer is. */
  lemma ParenInComment(e: string, gap: string, comment: string)
    requires e == "phase_now(240, 15)" && White(gap) && ')' in comment
    ensures ParseTrimmed("cur", e).Ok? && ParseExpr("cur", e + gap + "#" + comment) != ParseExpr("cur", e)
  {
    DocumentedCall(e);
    ParenSpoils("cur", e, gap, comment);
  }
}
