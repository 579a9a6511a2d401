/**
 Printing definitions and reading them back, step by step: trimming, splitting, numbers, expressions
 and lines, and what can be said of whatever a parse returns.
 */
module VelProofs {
  import opened Common
  import opened Numerals
  import opened TextSearch
  import opened VelTemplate
  import opened VelParse

  // -------------------------------------------------------------------- printing

  predicate Printable(d: VarDef) {
    && IsName(d.name)
    && match d
       case Literal(_, value) => '"' !in value && '\n' !in value
       case PhaseBucket(_, period, bucket, offset, prefix) =>
         period <= U64_MAX && bucket <= U64_MAX && 0 <= offset <= 1 && ',' !in prefix && '\n' !in prefix
  }

  predicate DistinctNames(defs: seq<VarDef>) {
    forall i, j :: 0 <= i < j < |defs| ==> defs[i].name != defs[j].name
  }

  predicate AllPrintable(defs: seq<VarDef>) {
    forall k :: 0 <= k < |defs| ==> Printable(defs[k])
  }

  function Quoted(s: string): string {
    "\"" + s + "\""
  }

  function FunctionName(d: VarDef): string
    requires d.PhaseBucket?
  {
    if d.offsetSlots == 0 then "phase_now" else "phase_next"
  }

  function ArgumentText(d: VarDef): string
    requires d.PhaseBucket?
  {
    Decimal(d.periodS) + "," + (" " + Decimal(d.bucketS)) + "," + (" " + Quoted(d.prefix))
  }

  function ExprText(d: VarDef): string {
    match d
    case Literal(_, value) => Quoted(value)
    case PhaseBucket(_, _, _, _, _) => FunctionName(d) + "(" + ArgumentText(d) + ")"
  }

  function LineText(d: VarDef): string {
    "$" + d.name + " " + "=" + (" " + ExprText(d))
  }

  function LineTexts(defs: seq<VarDef>): (r: seq<string>)
    ensures |r| == |defs| && forall k :: 0 <= k < |defs| ==> r[k] == LineText(defs[k])
  {
    seq(|defs|, k requires 0 <= k < |defs| => LineText(defs[k]))
  }

  function JoinLines(lines: seq<string>): string {
    if lines == [] then "" else lines[0] + "\n" + JoinLines(lines[1..])
  }

  function Print(defs: seq<VarDef>): string {
    JoinLines(LineTexts(defs))
  }

  // -------------------------------------------------------------------- trimming

  lemma {:induction false} TrimStartIs(s: string, i: nat, a: nat)
    requires i <= a <= |s|
    requires forall k :: i <= k < a ==> IsTrimSpace(s[k])
    requires a < |s| ==> !IsTrimSpace(s[a])
    ensures TrimStart(s, i) == a
    decreases a - i
  {
    if i < a {
      TrimStartIs(s, i + 1, a);
    }
  }

  /** Trimming takes exactly the white space around the text. */
  lemma TrimIs(s: string, a: nat, b: nat)
    requires a < b <= |s|
    requires forall k :: 0 <= k < a || b <= k < |s| ==> IsTrimSpace(s[k])
    requires !IsTrimSpace(s[a]) && !IsTrimSpace(s[b - 1])
    ensures Trim(s) == s[a..b]
  {
    TrimStartIs(s, 0, a);
    TrimEndIs(s, a, |s|, b);
  }

  lemma TrimSame(s: string)
    requires s != "" && !IsTrimSpace(s[0]) && !IsTrimSpace(s[|s| - 1])
    ensures Trim(s) == s
  {
    TrimIs(s, 0, |s|);
  }

  lemma TrimPadded(s: string)
    requires s != "" && !IsTrimSpace(s[0]) && !IsTrimSpace(s[|s| - 1])
    ensures Trim(" " + s) == s && Trim(s + " ") == s
  {
    TrimIs(" " + s, 1, 1 + |s|);
    TrimIs(s + " ", 0, |s|);
  }

  // --------------------------------------------------------------------- numbers

  lemma DigitsAreTight(n: nat)
    ensures var d := Decimal(n); d != "" && !IsTrimSpace(d[0]) && !IsTrimSpace(d[|d| - 1])
    ensures ',' !in Decimal(n) && ')' !in Decimal(n)
  {
  }

  lemma NumberReads(n: nat)
    requires n <= U64_MAX
    ensures ParseU64(Decimal(n)) == Some(n)
  {
    DecimalRoundTrip(n);
    assert IsDigit(Decimal(n)[0]);
  }

  // ------------------------------------------------------------------- arguments

  /** The first of several parts. */
  lemma SplitFirst(s: string, c: char, i: nat, n: nat)
    requires i <= n < |s| && s[n] == c
    requires forall k :: i <= k < n ==> s[k] != c
    ensures SplitFrom(s, c, i) == [s[i..n]] + SplitFrom(s, c, n + 1)
  {
    FindIs(s, c, i, n);
  }

  lemma SplitLast(s: string, c: char, i: nat)
    requires i <= |s|
    requires forall k :: i <= k < |s| ==> s[k] != c
    ensures SplitFrom(s, c, i) == [s[i..]]
  {
    FindIs(s, c, i, |s|);
  }

  /** Two comma-free parts and what follows them. */
  lemma SplitThree(s: string, n: nat, m: nat)
    requires n + 1 < m <= |s| && s[n] == ',' && s[m - 1] == ','
    requires ',' !in s[..n] && ',' !in s[n + 1..m - 1]
    ensures SplitFrom(s, ',', 0) == [s[..n]] + ([s[n + 1..m - 1]] + SplitFrom(s, ',', m))
  {
    forall k | 0 <= k < n ensures s[k] != ',' {
      assert s[k] == s[..n][k];
    }
    forall k | n + 1 <= k < m - 1 ensures s[k] != ',' {
      assert s[k] == s[n + 1..m - 1][k - n - 1];
    }
    SplitFirst(s, ',', 0, n);
    SplitFirst(s, ',', n + 1, m - 1);
    assert s[0..n] == s[..n];
  }

  /** Where the parts of `a,b,rest` lie. */
  lemma ThreeParts(a: string, b: string, rest: string, s: string) returns (n: nat, m: nat)
    requires s == a + "," + b + "," + rest
    ensures n + 1 < m <= |s| && s[n] == ',' && s[m - 1] == ','
    ensures s[..n] == a && s[n + 1..m - 1] == b && s[m..] == rest
  {
    n, m := |a|, |a| + |b| + 2;
  }

  lemma QuotedIsTight(s: string)
    ensures var q := Quoted(s); q != "" && !IsTrimSpace(q[0]) && !IsTrimSpace(q[|q| - 1])
  {
  }

  /** Three arguments are trimmed one by one. */
  lemma ArgumentsOfThree(t: string, n: nat, m: nat)
    requires n + 1 < m <= |t| && t[n] == ',' && t[m - 1] == ','
    requires ',' !in t[..n] && ',' !in t[n + 1..m - 1] && ',' !in t[m..]
    requires Trim(t) == t
    ensures Arguments(t) == [Trim(t[..n]), Trim(t[n + 1..m - 1]), Trim(t[m..])]
  {
    SplitThree(t, n, m);
    forall k | m <= k < |t| ensures t[k] != ',' {
      assert t[m..][k - m] == t[k];
    }
    SplitLast(t, ',', m);
    var parts := SplitFrom(t, ',', 0);
    assert parts == [t[..n], t[n + 1..m - 1], t[m..]];
    assert TrimAll(parts) == [Trim(t[..n]), Trim(t[n + 1..m - 1]), Trim(t[m..])];
  }

  lemma ArgumentsRead(d: VarDef)
    requires d.PhaseBucket? && ',' !in d.prefix
    ensures Arguments(ArgumentText(d)) == [Decimal(d.periodS), Decimal(d.bucketS), Quoted(d.prefix)]
  {
    DigitsAreTight(d.periodS);
    DigitsAreTight(d.bucketS);
    QuotedIsTight(d.prefix);
    TightArguments(Decimal(d.periodS), Decimal(d.bucketS), Quoted(d.prefix), ArgumentText(d));
  }

  predicate Tight(s: string) {
    s != "" && !IsTrimSpace(s[0]) && !IsTrimSpace(s[|s| - 1])
  }

  lemma TightArguments(a: string, b: string, q: string, s: string)
    requires Tight(a) && Tight(b) && Tight(q)
    requires ',' !in a && ',' !in b && ',' !in q
    requires s == a + "," + (" " + b) + "," + (" " + q)
    ensures Arguments(s) == [a, b, q]
  {
    var n, m := ThreeParts(a, " " + b, " " + q, s);
    EndsTight(s, m, a, q);
    TrimSame(s);
    ArgumentsOfThree(s, n, m);
    TrimSame(a);
    TrimPadded(b);
    TrimPadded(q);
  }

  lemma EndsTight(s: string, m: nat, a: string, q: string)
    requires a != "" && q != "" && |a| < m <= |s| && s[..|a|] == a && s[m..] == " " + q
    ensures s != "" && s[0] == a[0] && s[|s| - 1] == q[|q| - 1]
  {
    assert s[..|a|][0] == s[0];
    assert s[m..][|q|] == s[|s| - 1];
  }

  // ----------------------------------------------------------------- expressions

  /** Where the parts of a call with a tail lie. */
  lemma CallLies(f: string, args: string, tail: string, x: string) returns (open: nat, close: nat)
    requires x == f + "(" + args + ")" + tail
    ensures open == |f| < close < |x| && x[open] == '(' && x[close] == ')'
    ensures x[..open] == f && x[open + 1..close] == args && x[close + 1..] == tail
  {
    open, close := |f|, |f| + 1 + |args|;
  }

  /** The call runs from the first `(` to the last `)`. */
  lemma CallPartsAt(x: string, open: nat, close: nat)
    requires open < close < |x| && x[open] == '(' && x[close] == ')'
    requires '(' !in x[..open] && ')' !in x[close + 1..]
    requires TailAllowed(x[close + 1..])
    ensures CallParts(x) == Ok((x[..open], x[open + 1..close]))
  {
    forall k | 0 <= k < open ensures x[k] != '(' {
      assert x[k] == x[..open][k];
    }
    FindIs(x, '(', 0, open);
    forall k | close + 1 <= k < |x| ensures x[k] != ')' {
      assert x[k] == x[close + 1..][k - close - 1];
    }
    FindLastIs(x, ')', |x|, close + 1);
  }

  lemma CallReads(f: string, args: string, tail: string)
    requires f in {"phase_now", "phase_next"}
    requires ')' !in tail && TailAllowed(tail)
    ensures CallParts(f + "(" + args + ")" + tail) == Ok((f, args)) && Trim(f) == f
  {
    var x := f + "(" + args + ")" + tail;
    var open, close := CallLies(f, args, tail, x);
    CallPartsAt(x, open, close);
    TrimSame(f);
  }

  lemma LiteralReads(name: string, value: string, tail: string)
    requires '"' !in value && TailAllowed(tail)
    ensures ParseTrimmed(name, Quoted(value) + tail) == Ok(Literal(name, value))
  {
    var x := Quoted(value) + tail;
    var q := |value| + 1;
    assert x[1..q] == value && x[q] == '"' && x[q + 1..] == tail;
    forall k | 1 <= k < q ensures x[k] != '"' {
      assert x[k] == value[k - 1];
    }
    FindIs(x, '"', 1, q);
  }

  lemma PhaseReads(d: VarDef)
    requires Printable(d) && d.PhaseBucket?
    ensures ParseCall(d.name, FunctionName(d), [Decimal(d.periodS), Decimal(d.bucketS), Quoted(d.prefix)]) == Ok(d)
  {
    NumberReads(d.periodS);
    NumberReads(d.bucketS);
    assert Quoted(d.prefix)[1..|d.prefix| + 1] == d.prefix;
  }

  /** A printed expression reads back, whatever permitted tail follows that holds no `)`. */
  lemma ExprReads(d: VarDef, tail: string)
    requires Printable(d) && TailAllowed(tail)
    requires d.Literal? || ')' !in tail
    ensures ParseTrimmed(d.name, ExprText(d) + tail) == Ok(d)
  {
    if d.Literal? {
      LiteralReads(d.name, d.value, tail);
    } else {
      CallReads(FunctionName(d), ArgumentText(d), tail);
      ArgumentsRead(d);
      PhaseReads(d);
    }
  }

  lemma ExprIsTight(d: VarDef)
    ensures Tight(ExprText(d))
  {
    if d.PhaseBucket? {
      assert ExprText(d)[0] == 'p';
    }
  }

  // ----------------------------------------------------------------------- lines

  lemma NameSide(name: string)
    requires IsName(name)
    ensures '=' !in "$" + name + " " && Trim("$" + name + " ") == "$" + name
  {
    var s := "$" + name;
    assert s[|s| - 1] == name[|name| - 1];
    TrimPadded(s);
  }

  lemma SidesAt(line: string, eq: nat)
    requires eq < |line| && line[eq] == '=' && '=' !in line[..eq]
    ensures Find(line, '=', 0) == eq
  {
    forall k | 0 <= k < eq ensures line[k] != '=' {
      assert line[k] == line[..eq][k];
    }
    FindIs(line, '=', 0, eq);
  }

  /** A printed line names its variable and carries its expression. */
  lemma LineReads(d: VarDef)
    requires Printable(d)
    ensures ReadName(LineText(d)) == Ok(d.name)
    ensures RightSide(LineText(d)) == " " + ExprText(d)
  {
    var lhs, rhs := "$" + d.name + " ", " " + ExprText(d);
    var line := LineText(d);
    NameSide(d.name);
    assert line == lhs + "=" + rhs;
    var eq := |lhs|;
    assert line[..eq] == lhs && line[eq] == '=' && line[eq + 1..] == rhs;
    SidesAt(line, eq);
    assert ("$" + d.name)[1..] == d.name;
  }

  lemma AssignmentReads(d: VarDef, seen: set<string>)
    requires Printable(d) && d.name !in seen
    ensures ParseAssignment(LineText(d), seen) == Ok(d)
  {
    LineReads(d);
    ExprIsTight(d);
    TrimPadded(ExprText(d));
    TrimSame(ExprText(d));
    assert ExprText(d) + "" == ExprText(d);
    ExprReads(d, "");
  }

  lemma LineIsTight(d: VarDef)
    ensures Tight(LineText(d)) && LineText(d)[0] == '$'
  {
    ExprIsTight(d);
    var e, line := ExprText(d), LineText(d);
    assert line[|line| - 1] == e[|e| - 1];
  }

  lemma NoLineEnd(d: VarDef)
    requires Printable(d)
    ensures '\n' !in LineText(d)
  {
    if d.PhaseBucket? {
      assert '\n' !in Decimal(d.periodS) && '\n' !in Decimal(d.bucketS);
      assert '\n' !in ArgumentText(d);
    }
    assert '\n' !in ExprText(d);
  }

  /** The first line of several. */
  lemma FirstLine(s: string, i: nat, e: nat)
    requires i < e < |s| && s[e] == '\n' && s[e - 1] != '\r'
    requires '\n' !in s[i..e]
    ensures LinesFrom(s, i) == [s[i..e]] + LinesFrom(s, e + 1)
  {
    forall k | i <= k < e ensures s[k] != '\n' {
      assert s[k] == s[i..e][k - i];
    }
    FindIs(s, '\n', i, e);
  }

  lemma LineLies(s: string, i: nat, line: string, rest: string) returns (e: nat)
    requires i <= |s| && s[i..] == line + "\n" + rest && line != ""
    ensures i < e < |s| && e == i + |line| && s[i..e] == line && s[e] == '\n' && s[e + 1..] == rest
    ensures s[e - 1] == line[|line| - 1]
  {
    e := i + |line|;
    var t := s[i..];
    assert |t| == |line| + 1 + |rest|;
    assert t[..|line|] == line && t[|line|] == '\n' && t[|line| + 1..] == rest;
    assert s[i..e] == t[..|line|] && s[e] == t[|line|] && s[e + 1..] == t[|line| + 1..];
    assert s[e - 1] == t[|line| - 1];
  }

  predicate PlainLine(line: string) {
    line != "" && '\n' !in line && line[|line| - 1] != '\r'
  }

  lemma JoinStep(s: string, i: nat, line: string, rest: string) returns (e: nat)
    requires i <= |s| && s[i..] == line + "\n" + rest && PlainLine(line)
    ensures e < |s| && s[e + 1..] == rest
    ensures LinesFrom(s, i) == [line] + LinesFrom(s, e + 1)
  {
    e := LineLies(s, i, line, rest);
    FirstLine(s, i, e);
  }

  lemma {:induction false} LinesOfJoin(s: string, i: nat, lines: seq<string>)
    requires i <= |s| && s[i..] == JoinLines(lines)
    requires forall k :: 0 <= k < |lines| ==> PlainLine(lines[k])
    ensures LinesFrom(s, i) == lines
    decreases |lines|
  {
    if lines != [] {
      assert PlainLine(lines[0]);
      var e := JoinStep(s, i, lines[0], JoinLines(lines[1..]));
      LinesOfJoin(s, e + 1, lines[1..]);
      assert lines == [lines[0]] + lines[1..];
    }
  }

  /** One printed line among others. */
  lemma DefReads(lines: seq<string>, i: nat, d: VarDef, seen: set<string>)
    requires i < |lines| && lines[i] == LineText(d)
    requires Printable(d) && d.name !in seen
    ensures ParseFrom(lines, i, seen) == Prepend([d], ParseFrom(lines, i + 1, seen + {d.name}))
  {
    LineIsTight(d);
    TrimSame(LineText(d));
    AssignmentReads(d, seen);
  }

  lemma {:induction false} DefsRead(lines: seq<string>, i: nat, defs: seq<VarDef>, seen: set<string>)
    requires |lines| == |defs| && forall k :: 0 <= k < |defs| ==> lines[k] == LineText(defs[k])
    requires AllPrintable(defs) && DistinctNames(defs)
    requires i <= |defs| && forall k :: i <= k < |defs| ==> defs[k].name !in seen
    ensures ParseFrom(lines, i, seen) == Ok(defs[i..])
    decreases |defs| - i
  {
    if i == |defs| {
      assert defs[i..] == [];
    } else {
      DefReads(lines, i, defs[i], seen);
      DefsRead(lines, i + 1, defs, seen + {defs[i].name});
      PrependRest(defs, i);
    }
  }

  lemma PrependRest(defs: seq<VarDef>, i: nat)
    requires i < |defs|
    ensures Prepend([defs[i]], Ok(defs[i + 1..])) == Ok(defs[i..])
  {
    assert [defs[i]] + defs[i + 1..] == defs[i..];
  }

  // --------------------------------------------------- what a parse can return

  predicate NoneHolds(parts: seq<string>, c: char) {
    forall k :: 0 <= k < |parts| ==> c !in parts[k]
  }

  lemma SliceLacks(s: string, c: char, a: nat, b: nat)
    requires a <= b <= |s| && forall k :: a <= k < b ==> s[k] != c
    ensures c !in s[a..b]
  {
    forall k | 0 <= k < b - a ensures s[a..b][k] != c {
    }
  }

  lemma TrimLacks(s: string, c: char)
    requires c !in s
    ensures c !in Trim(s)
  {
    var a := TrimStart(s, 0);
    SliceLacks(s, c, a, TrimEnd(s, a, |s|));
  }

  /** No part of a split holds the separator, nor anything the text lacks. */
  lemma {:induction false} SplitLacks(s: string, c: char, i: nat, x: char)
    requires i <= |s| && (x == c || x !in s)
    ensures NoneHolds(SplitFrom(s, c, i), x)
    decreases |s| - i
  {
    var e := Find(s, c, i);
    FindSkips(s, c, i);
    SliceLacks(s, x, i, e);
    if e < |s| {
      SplitLacks(s, c, e + 1, x);
    }
  }

  lemma {:induction false} LinesLack(s: string, i: nat)
    requires i <= |s|
    ensures NoneHolds(LinesFrom(s, i), '\n')
    decreases |s| - i
  {
    if i < |s| {
      var e := Find(s, '\n', i);
      FindSkips(s, '\n', i);
      SliceLacks(s, '\n', i, e);
      if e < |s| {
        if i < e {
          SliceLacks(s, '\n', i, e - 1);
        }
        LinesLack(s, e + 1);
      }
    }
  }

  lemma ArgumentsLack(raw: string)
    requires '\n' !in raw
    ensures NoneHolds(Arguments(raw), ',') && NoneHolds(Arguments(raw), '\n')
  {
    var t := Trim(raw);
    TrimLacks(raw, '\n');
    var parts := SplitFrom(t, ',', 0);
    SplitLacks(t, ',', 0, ',');
    SplitLacks(t, ',', 0, '\n');
    forall k | 0 <= k < |parts| ensures ',' !in Trim(parts[k]) && '\n' !in Trim(parts[k]) {
      TrimLacks(parts[k], ',');
      TrimLacks(parts[k], '\n');
    }
  }

  lemma CallIsPrintable(name: string, f: string, args: seq<string>)
    requires IsName(name) && NoneHolds(args, ',') && NoneHolds(args, '\n')
    requires ParseCall(name, f, args).Ok?
    ensures Printable(ParseCall(name, f, args).value)
  {
    if |args| == 3 {
      assert ',' !in args[2] && '\n' !in args[2];
    }
  }

  lemma CallTextLacks(expr: string)
    requires '\n' !in expr && CallParts(expr).Ok?
    ensures '\n' !in CallParts(expr).value.1
  {
  }

  lemma CallTextIsPrintable(name: string, call: (string, string))
    requires IsName(name) && '\n' !in call.1
    requires ParseCall(name, Trim(call.0), Arguments(call.1)).Ok?
    ensures Printable(ParseCall(name, Trim(call.0), Arguments(call.1)).value)
  {
    ArgumentsLack(call.1);
    CallIsPrintable(name, Trim(call.0), Arguments(call.1));
  }

  lemma ExprIsPrintable(name: string, expr: string)
    requires IsName(name) && '\n' !in expr
    requires ParseTrimmed(name, expr).Ok?
    ensures Printable(ParseTrimmed(name, expr).value)
  {
    if expr != "" && expr[0] == '"' {
      var q := Find(expr, '"', 1);
      FindSkips(expr, '"', 1);
      SliceLacks(expr, '"', 1, q);
    } else {
      CallTextLacks(expr);
      CallTextIsPrintable(name, CallParts(expr).value);
    }
  }

  lemma NameRead(line: string, name: string)
    requires ReadName(line) == Ok(name)
    ensures IsName(name)
  {
  }

  lemma AssignmentIsPrintable(line: string, seen: set<string>)
    requires '\n' !in line && ParseAssignment(line, seen).Ok?
    ensures Printable(ParseAssignment(line, seen).value)
    ensures ParseAssignment(line, seen).value.name !in seen
  {
    var name := ReadName(line).value;
    NameRead(line, name);
    var rhs := RightSide(line);
    TrimLacks(rhs, '\n');
    TrimLacks(Trim(rhs), '\n');
    ExprIsPrintable(name, Trim(Trim(rhs)));
  }

  /** A list that continues the names already taken. */
  predicate Continues(defs: seq<VarDef>, seen: set<string>) {
    AllPrintable(defs) && DistinctNames(defs) && forall k :: 0 <= k < |defs| ==> defs[k].name !in seen
  }

  lemma ContinuesStep(d: VarDef, defs: seq<VarDef>, seen: set<string>)
    requires Printable(d) && d.name !in seen && Continues(defs, seen + {d.name})
    ensures Continues([d] + defs, seen)
  {
    var all := [d] + defs;
    forall k | 0 <= k < |all| ensures Printable(all[k]) && all[k].name !in seen {
      if 0 < k {
        assert all[k] == defs[k - 1];
      }
    }
    forall i, j | 0 <= i < j < |all| ensures all[i].name != all[j].name {
      assert all[j] == defs[j - 1];
    }
  }

  lemma {:induction false} ParseContinues(lines: seq<string>, i: nat, seen: set<string>)
    requires i <= |lines| && NoneHolds(lines, '\n')
    requires ParseFrom(lines, i, seen).Ok?
    ensures Continues(ParseFrom(lines, i, seen).value, seen)
    decreases |lines| - i
  {
    if i < |lines| {
      var line := Trim(lines[i]);
      if IsBlank(line) {
        ParseContinues(lines, i + 1, seen);
      } else {
        var d := ParseAssignment(line, seen).value;
        TrimLacks(lines[i], '\n');
        AssignmentIsPrintable(line, seen);
        ParseContinues(lines, i + 1, seen + {d.name});
        ContinuesStep(d, ParseFrom(lines, i + 1, seen + {d.name}).value, seen);
      }
    }
  }
}
