/** Reading VEL code. */
module VelParse {
  // Reading VEL code (src/vel.rs, `parse`, `parse_expr`, `validate_tail`, `prefix_arg`): one
  // assignment `$name = expression` a line, where an expression is a quoted literal or a call of
  // `phase_now` or `phase_next`.

  import opened Common
  import opened Numerals
  import opened TextSearch
  import opened VelTemplate

  const U64_MAX: nat := 0xFFFF_FFFF_FFFF_FFFF

  datatype VarDef =
    | Literal(name: string, value: string)
    | PhaseBucket(name: string, periodS: nat, bucketS: nat, offsetSlots: int, prefix: string)

  datatype Problem =
    | MissingEquals | BadName | Duplicate
    | Unclosed | Unsupported | NoCloseParen | TrailingText
    | BadNumber | BadPrefix | WrongArity | UnknownFunction

  /** Lines are counted from one. */
  datatype LineError = LineError(line: nat, problem: Problem)

  // ----------------------------------------------------------------- expressions

  /** After the expression only white space or a comment may follow. */
  predicate TailAllowed(tail: string) {
    var t := Trim(tail);
    t == "" || t[0] == '#'
  }

  /** Rust's `str::parse::<u64>`: an optional `+`, then digits whose value fits 64 bits. */
  function ParseU64(s: string): Option<nat> {
    var digits := if s != "" && s[0] == '+' then s[1..] else s;
    if digits != "" && AllDigits(digits) && ParseDecimal(digits) <= U64_MAX then Some(ParseDecimal(digits)) else None
  }

  function PrefixArg(args: seq<string>): Result<string, Problem> {
    if |args| < 3 then Ok("p")
    else
      var a := args[2];
      if 2 <= |a| && a[0] == '"' && a[|a| - 1] == '"' then Ok(a[1..|a| - 1]) else Err(BadPrefix)
  }

  function TrimAll(parts: seq<string>): (r: seq<string>)
    ensures |r| == |parts| && forall k :: 0 <= k < |parts| ==> r[k] == Trim(parts[k])
  {
    seq(|parts|, i requires 0 <= i < |parts| => Trim(parts[i]))
  }

  function Arguments(raw: string): seq<string> {
    var t := Trim(raw);
    if t == "" then [] else TrimAll(SplitFrom(t, ',', 0))
  }

  function ParseCall(name: string, fname: string, args: seq<string>): (r: Result<VarDef, Problem>)
    ensures r.Ok? ==> r.value.name == name
  {
    if fname != "phase_now" && fname != "phase_next" then Err(UnknownFunction)
    else if |args| != 2 && |args| != 3 then Err(WrongArity)
    else
      var period, bucket := ParseU64(args[0]), ParseU64(args[1]);
      if period.None? || bucket.None? then Err(BadNumber)
      else
        match PrefixArg(args)
        case Err(p) => Err(p)
        case Ok(prefix) =>
          Ok(PhaseBucket(name, period.value, bucket.value, if fname == "phase_now" then 0 else 1, prefix))
  }

  /** A quoted literal, taken verbatim; `expr` starts with the opening quote. */
  function ParseLiteral(name: string, expr: string): (r: Result<VarDef, Problem>)
    requires expr != ""
    ensures r.Ok? ==> r.value.name == name
  {
    var q := Find(expr, '"', 1);
    if q == |expr| then Err(Unclosed)
    else if TailAllowed(expr[q + 1..]) then Ok(Literal(name, expr[1..q]))
    else Err(TrailingText)
  }

  /** The function's name and the text of its arguments: the call runs from the first `(` to the last `)`. */
  function CallParts(expr: string): Result<(string, string), Problem> {
    var open := Find(expr, '(', 0);
    var after := FindLast(expr, ')', |expr|);
    if open == |expr| then Err(Unsupported)
    else if after <= open + 1 then Err(NoCloseParen)
    else if TailAllowed(expr[after..]) then Ok((expr[..open], expr[open + 1..after - 1]))
    else Err(TrailingText)
  }

  function ParseCallText(name: string, expr: string): (r: Result<VarDef, Problem>)
    ensures r.Ok? ==> r.value.name == name
  {
    match CallParts(expr)
    case Err(p) => Err(p)
    case Ok(call) => ParseCall(name, Trim(call.0), Arguments(call.1))
  }

  /** An expression without white space around it. */
  function ParseTrimmed(name: string, expr: string): (r: Result<VarDef, Problem>)
    ensures r.Ok? ==> r.value.name == name
  {
    if expr != "" && expr[0] == '"' then ParseLiteral(name, expr) else ParseCallText(name, expr)
  }

  function ParseExpr(name: string, expr: string): (r: Result<VarDef, Problem>)
    ensures r.Ok? ==> r.value.name == name
  {
    ParseTrimmed(name, Trim(expr))
  }

  // ----------------------------------------------------------------------- lines

  /** The name an assignment line gives a value to. */
  function ReadName(line: string): Result<string, Problem> {
    var eq := Find(line, '=', 0);
    if eq == |line| then Err(MissingEquals)
    else
      var lhs := Trim(line[..eq]);
      if lhs != "" && lhs[0] == '$' && IsName(lhs[1..]) then Ok(lhs[1..]) else Err(BadName)
  }

  /** The text right of the first `=`, if there is one. */
  function RightSide(line: string): string {
    var eq := Find(line, '=', 0);
    if eq == |line| then "" else line[eq + 1..]
  }

  function ParseAssignment(line: string, seen: set<string>): Result<VarDef, Problem> {
    match ReadName(line)
    case Err(p) => Err(p)
    case Ok(name) => if name in seen then Err(Duplicate) else ParseExpr(name, Trim(RightSide(line)))
  }

  predicate IsBlank(line: string) {
    line == "" || line[0] == '#'
  }

  /** The definitions on the lines from `i` on, when the names `seen` are taken. */
  function ParseFrom(lines: seq<string>, i: nat, seen: set<string>): Result<seq<VarDef>, LineError>
    requires i <= |lines|
    decreases |lines| - i
  {
    if i == |lines| then Ok([])
    else
      var line := Trim(lines[i]);
      if IsBlank(line) then ParseFrom(lines, i + 1, seen)
      else
        match ParseAssignment(line, seen)
        case Err(p) => Err(LineError(i + 1, p))
        case Ok(def) => Prepend([def], ParseFrom(lines, i + 1, seen + {def.name}))
  }

  function Prepend(defs: seq<VarDef>, r: Result<seq<VarDef>, LineError>): Result<seq<VarDef>, LineError> {
    match r
    case Err(e) => Err(e)
    case Ok(rest) => Ok(defs + rest)
  }

  lemma PrependNothing(r: Result<seq<VarDef>, LineError>)
    ensures Prepend([], r) == r
  {
    if r.Ok? {
      assert [] + r.value == r.value;
    }
  }

  lemma PrependTwice(a: seq<VarDef>, b: seq<VarDef>, r: Result<seq<VarDef>, LineError>)
    ensures Prepend(a, Prepend(b, r)) == Prepend(a + b, r)
  {
    if r.Ok? {
      assert a + (b + r.value) == a + b + r.value;
    }
  }

  function Parsed(code: string): Result<seq<VarDef>, LineError> {
    ParseFrom(LinesFrom(code, 0), 0, {})
  }

  /** The loop's body for a line that is neither white nor a comment. */
  method ParseLine(line: string, seen: set<string>) returns (r: Result<VarDef, Problem>)
    ensures r == ParseAssignment(line, seen)
  {
    var eq := Find(line, '=', 0);
    if eq == |line| {
      return Err(MissingEquals);
    }
    var name := Trim(line[..eq]);
    if !(name != "" && name[0] == '$' && IsName(name[1..])) {
      return Err(BadName);
    }
    var key := name[1..];
    if key in seen {
      return Err(Duplicate);
    }
    r := ParseExpr(key, Trim(line[eq + 1..]));
  }

  method Parse(code: string) returns (r: Result<seq<VarDef>, LineError>)
    ensures r == Parsed(code)
  {
    var out: seq<VarDef> := [];
    var seen: set<string> := {};
    var lines := LinesFrom(code, 0);
    var idx := 0;
    PrependNothing(Parsed(code));
    while idx < |lines|
      invariant 0 <= idx <= |lines|
      invariant Parsed(code) == Prepend(out, ParseFrom(lines, idx, seen))
    {
      var line := Trim(lines[idx]);
      if IsBlank(line) {
        idx := idx + 1;
        continue;
      }
      var def := ParseLine(line, seen);
      if def.Err? {
        return Err(LineError(idx + 1, def.error));
      }
      seen := seen + {def.value.name};
      PrependTwice(out, [def.value], ParseFrom(lines, idx + 1, seen));
      out := out + [def.value];
      idx := idx + 1;
    }
    assert out + [] == out;
    r := Ok(out);
  }
}
