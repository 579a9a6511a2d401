/** Provider routing. */
module SqlRoute {
  // Provider routing (src/sql_route.rs): find the first table of a statement and strip the
  // provider prefix from its identifiers. Each byte loop is proved against positions of the
  // one scan defined in `SqlScan`.

  import opened Common
  import opened SqlScan

  // ------------------------------------------------------ regions that are skipped

  datatype OpeningKind = Quote | OpenBracket | OpenLine | OpenBlock | Plain

  /** The branch every scanner takes on the byte at `i`. */
  function Opening(s: string, i: nat): (k: OpeningKind)
    requires i < |s|
    ensures k.Plain? <==> Step(Code, s, i) == Code
  {
    if IsQuote(s[i]) then Quote
    else if s[i] == '[' then OpenBracket
    else if s[i] == '-' && At(s, i + 1, '-') then OpenLine
    else if s[i] == '/' && At(s, i + 1, '*') then OpenBlock
    else Plain
  }

  /** Where a scan may stand after skipping the region opened at `i`: back in code, having passed no code byte. */
  ghost predicate SkippedTo(s: string, a: nat, i: nat, j: nat)
    requires a <= i
  {
    && i < j <= |s|
    && (j == |s| || ModeFrom(s, a, j) == Code)
    && forall k :: i <= k < j ==> !IsCode(s, a, k)
  }

  /**
   The quote loop. With `doubled`, a doubled quote stays inside the region; the routing
   scanners use that for ' and ", and prefix stripping for ` as well.
   */
  method SkipQuoted(s: string, ghost a: nat, i: nat, doubled: bool) returns (j: nat)
    requires a <= i < |s| && ModeFrom(s, a, i) == Code && IsQuote(s[i])
    ensures SkippedTo(s, a, i, j)
  {
    var quote := s[i];
    j := i + 1;
    var closed := false;
    while j < |s| && !closed
      invariant i < j <= |s|
      invariant j == |s| || ModeFrom(s, a, j) == if closed then Code else Quoted(quote)
      invariant forall k :: i <= k < j ==> !IsCode(s, a, k)
      decreases |s| - j, if closed then 0 else 1
    {
      if s[j] == quote {
        j := j + 1;
        if doubled && j < |s| && s[j] == quote {
          j := j + 1;
        } else {
          closed := true;
        }
      } else {
        j := j + 1;
      }
    }
  }

  method SkipBracket(s: string, ghost a: nat, i: nat) returns (j: nat)
    requires a <= i < |s| && ModeFrom(s, a, i) == Code && s[i] == '['
    ensures SkippedTo(s, a, i, j)
  {
    j := i + 1;
    while j < |s| && s[j] != ']'
      invariant i < j <= |s|
      invariant ModeFrom(s, a, j) == Bracket
      invariant forall k :: i <= k < j ==> !IsCode(s, a, k)
    {
      j := j + 1;
    }
    if j < |s| {
      j := j + 1;
    }
  }

  /** The line-comment loop; it stops on the newline. Prefix stripping starts it with `from == 0`, the others with 2. */
  method SkipLineComment(s: string, ghost a: nat, i: nat, from: nat) returns (j: nat)
    requires a <= i < |s| && ModeFrom(s, a, i) == Code && s[i] == '-' && At(s, i + 1, '-')
    requires from == 0 || from == 2
    ensures SkippedTo(s, a, i, j)
  {
    j := i + from;
    assert ModeFrom(s, a, i + 1) == LineComment;
    while j < |s| && s[j] != '\n'
      invariant i <= j <= |s|
      invariant ModeFrom(s, a, j) == if j == i || At(s, j, '\n') then Code else LineComment
      invariant forall k :: i <= k < j ==> !IsCode(s, a, k)
      invariant j == i ==> from == 0
    {
      j := j + 1;
    }
  }

  method SkipBlockComment(s: string, ghost a: nat, i: nat) returns (j: nat)
    requires a <= i < |s| && ModeFrom(s, a, i) == Code && s[i] == '/' && At(s, i + 1, '*')
    ensures SkippedTo(s, a, i, j)
  {
    j := i + 2;
    assert ModeFrom(s, a, i + 1) == BlockOpen;
    while j + 1 < |s| && !(s[j] == '*' && s[j + 1] == '/')
      invariant i + 2 <= j <= |s|
      invariant ModeFrom(s, a, j) == Block
      invariant forall k :: i <= k < j ==> !IsCode(s, a, k)
    {
      j := j + 1;
    }
    if j + 1 < |s| {
      assert ModeFrom(s, a, j + 1) == BlockClose;
      j := j + 2;
    } else {
      j := |s|;
    }
  }

  // ---------------------------------------------------------------- find_keyword

  predicate WordAt(s: string, kw: string, i: nat) {
    && i + |kw| <= |s|
    && EqIgnoreCase(s[i..i + |kw|], kw)
    && (i == 0 || !IsIdent(s[i - 1]))
    && (i + |kw| == |s| || !IsIdent(s[i + |kw|]))
  }

  /** A word-bounded, case-insensitive occurrence of the keyword that starts on a code byte. */
  predicate KeywordAt(s: string, kw: string, i: nat) {
    IsCode(s, 0, i) && WordAt(s, kw, i)
  }

  /** The first keyword occurrence at or after `i`. */
  function KeywordFrom(s: string, kw: string, i: nat): (r: Option<nat>)
    requires i <= |s|
    ensures r.Some? ==> i <= r.value < |s| && KeywordAt(s, kw, r.value)
    ensures forall j :: i <= j < (if r.Some? then r.value else |s|) ==> !KeywordAt(s, kw, j)
    decreases |s| - i
  {
    if i == |s| then None
    else if KeywordAt(s, kw, i) then Some(i)
    else KeywordFrom(s, kw, i + 1)
  }

  method FindKeyword(sql: string, keyword: string) returns (r: Option<nat>)
    ensures r.Some? ==> KeywordAt(sql, keyword, r.value)
    ensures forall j :: 0 <= j < (if r.Some? then r.value else |sql|) ==> !KeywordAt(sql, keyword, j)
  {
    var idx := 0;
    while idx < |sql|
      invariant idx <= |sql|
      invariant idx == |sql| || ModeFrom(sql, 0, idx) == Code
      invariant forall j :: 0 <= j < idx ==> !KeywordAt(sql, keyword, j)
    {
      match Opening(sql, idx)
      case Quote =>
        idx := SkipQuoted(sql, 0, idx, sql[idx] != '`');
      case OpenBracket =>
        idx := SkipBracket(sql, 0, idx);
      case OpenLine =>
        idx := SkipLineComment(sql, 0, idx, 2);
      case OpenBlock =>
        idx := SkipBlockComment(sql, 0, idx);
      case Plain =>
        var end := idx + |keyword|;
        if end <= |sql|
           && EqIgnoreCase(sql[idx..end], keyword)
           && (idx == 0 || !IsIdent(sql[idx - 1]))
           && (end == |sql| || !IsIdent(sql[end]))
        {
          return Some(idx);
        }
        idx := idx + 1;
    }
    return None;
  }

  // -------------------------------------------------------------- matching_paren

  /** Code opening parentheses minus code closing ones in `s[a..i]`, scanning from `a`. */
  function ParenDepth(s: string, a: nat, i: nat): int
    requires a <= i <= |s|
    decreases i
  {
    if i == a then 0
    else ParenDepth(s, a, i - 1)
         + if !IsCode(s, a, i - 1) then 0
           else if s[i - 1] == '(' then 1
           else if s[i - 1] == ')' then -1
           else 0
  }

  /** A code `)` at which the depth has come back to zero, or below. */
  predicate ClosesAt(s: string, a: nat, i: nat)
    requires a <= i
  {
    IsCode(s, a, i) && s[i] == ')' && ParenDepth(s, a, i + 1) <= 0
  }

  predicate FirstClose(s: string, a: nat, c: nat) {
    a <= c && ClosesAt(s, a, c) && forall j :: a <= j < c ==> !ClosesAt(s, a, j)
  }

  /**
   `r` is the first code position where the depth returns to zero; nothing if it falls below zero or
   never returns.
   */
  ghost predicate Matches(s: string, a: nat, r: Option<nat>) {
    && (r.Some? ==> FirstClose(s, a, r.value) && ParenDepth(s, a, r.value + 1) == 0)
    && (r.None? ==> forall c: nat :: FirstClose(s, a, c) ==> ParenDepth(s, a, c + 1) < 0)
  }

  lemma {:induction false} DepthUnchanged(s: string, a: nat, i: nat, j: nat)
    requires a <= i <= j <= |s|
    requires forall k :: i <= k < j ==> !IsCode(s, a, k)
    ensures ParenDepth(s, a, j) == ParenDepth(s, a, i)
    decreases j
  {
    if i < j {
      DepthUnchanged(s, a, i, j - 1);
    }
  }

  method MatchingParen(sql: string, openPos: nat) returns (r: Option<nat>)
    ensures Matches(sql, openPos, r)
  {
    if |sql| <= openPos {
      return None;
    }
    var depth := 0;
    var idx := openPos;
    while idx < |sql|
      invariant openPos <= idx <= |sql|
      invariant idx == |sql| || ModeFrom(sql, openPos, idx) == Code
      invariant depth == ParenDepth(sql, openPos, idx) >= 0
      invariant forall j :: openPos <= j < idx ==> !ClosesAt(sql, openPos, j)
    {
      ghost var before := idx;
      match Opening(sql, idx)
      case Quote =>
        idx := SkipQuoted(sql, openPos, idx, sql[idx] != '`');
        DepthUnchanged(sql, openPos, before, idx);
      case OpenBracket =>
        idx := SkipBracket(sql, openPos, idx);
        DepthUnchanged(sql, openPos, before, idx);
      case OpenLine =>
        idx := SkipLineComment(sql, openPos, idx, 2);
        DepthUnchanged(sql, openPos, before, idx);
      case OpenBlock =>
        idx := SkipBlockComment(sql, openPos, idx);
        DepthUnchanged(sql, openPos, before, idx);
      case Plain =>
        if sql[idx] == '(' {
          depth := depth + 1;
        } else if sql[idx] == ')' {
          if depth == 0 {
            assert ClosesAt(sql, openPos, idx) && ParenDepth(sql, openPos, idx + 1) < 0;
            return None;
          }
          depth := depth - 1;
          if depth == 0 {
            return Some(idx);
          }
        }
        idx := idx + 1;
    }
    return None;
  }

  /**
   The first position at or after `i` where the parenthesis opened at `a` closes; nothing if the depth
   falls below zero first.
   */
  function CloseFrom(s: string, a: nat, i: nat): (r: Option<nat>)
    requires a <= i <= |s|
    requires forall j :: a <= j < i ==> !ClosesAt(s, a, j)
    ensures Matches(s, a, r)
    decreases |s| - i
  {
    if i == |s| then None
    else if ClosesAt(s, a, i) then (if ParenDepth(s, a, i + 1) == 0 then Some(i) else None)
    else CloseFrom(s, a, i + 1)
  }

  // ------------------------------------------------------------ first_table_name

  const FROM := "from"

  predicate EndsTable(c: char) {
    IsAsciiSpace(c) || c == ';' || c == ',' || c == ')'
  }

  function SkipSpaces(s: string, i: nat): (r: nat)
    requires i <= |s|
    ensures i <= r <= |s|
    decreases |s| - i
  {
    if i < |s| && IsAsciiSpace(s[i]) then SkipSpaces(s, i + 1) else i
  }

  lemma {:induction false} SkipSpacesSkips(s: string, i: nat)
    requires i <= |s|
    ensures forall k :: i <= k < SkipSpaces(s, i) ==> IsAsciiSpace(s[k])
    decreases |s| - i
  {
    if i < |s| && IsAsciiSpace(s[i]) {
      SkipSpacesSkips(s, i + 1);
    }
  }

  function TableEnd(s: string, i: nat): (r: nat)
    requires i <= |s|
    ensures i <= r <= |s|
    ensures r < |s| ==> EndsTable(s[r])
    decreases |s| - i
  {
    if i < |s| && !EndsTable(s[i]) then TableEnd(s, i + 1) else i
  }

  /** Where the table reference (or the subquery's parenthesis) after the keyword at `kw` starts. */
  function TableStart(s: string, kw: nat): (r: nat)
    requires kw + |FROM| <= |s|
    ensures kw + |FROM| <= r <= |s|
  {
    SkipSpaces(s, kw + |FROM|)
  }

  datatype Reference = Missing | Subquery(inner: string) | Table(name: string)

  /** What follows the first `from`: nothing usable, a parenthesised subquery or a table name. */
  function FirstReference(s: string): (r: Reference)
    ensures r.Subquery? ==> |r.inner| < |s|
    ensures r.Table? ==> r.name != "" && |r.name| < |s|
  {
    match KeywordFrom(s, FROM, 0)
    case None => Missing
    case Some(kw) => ReferenceAt(s, TableStart(s, kw))
  }

  function ReferenceAt(s: string, start: nat): (r: Reference)
    requires start <= |s|
    ensures r.Subquery? ==> |r.inner| + start < |s|
    ensures r.Table? ==> r.name != "" && |r.name| + start <= |s|
  {
    if At(s, start, '(') then
      var close := CloseFrom(s, start, start);
      if close.Some? && start < close.value then Subquery(s[start + 1..close.value]) else Missing
    else
      var table := Trim(s[start..TableEnd(s, start)]);
      if table == "" then Missing else Table(table)
  }

  /** The first table reference of a statement, descending into subqueries. */
  function FirstTable(s: string): Option<string>
    decreases |s|
  {
    match FirstReference(s)
    case Missing => None
    case Subquery(inner) => FirstTable(inner)
    case Table(name) => Some(name)
  }

  lemma KeywordIsFirst(s: string, kw: string, r: Option<nat>)
    requires r.Some? ==> KeywordAt(s, kw, r.value)
    requires forall j :: 0 <= j < (if r.Some? then r.value else |s|) ==> !KeywordAt(s, kw, j)
    ensures r == KeywordFrom(s, kw, 0)
  {
    var f := KeywordFrom(s, kw, 0);
    if r.Some? && f.Some? {
      assert KeywordAt(s, kw, r.value) && KeywordAt(s, kw, f.value);
    }
  }

  lemma CloseIsFirst(s: string, a: nat, r: Option<nat>)
    requires a <= |s|
    requires Matches(s, a, r)
    ensures r == CloseFrom(s, a, a)
  {
    var f := CloseFrom(s, a, a);
    if r.Some? && f.Some? {
      assert FirstClose(s, a, r.value) && FirstClose(s, a, f.value);
    }
  }

  method SkipSpacesLoop(s: string, i: nat) returns (r: nat)
    requires i <= |s|
    ensures r == SkipSpaces(s, i)
  {
    r := i;
    while r < |s| && IsAsciiSpace(s[r])
      invariant i <= r <= |s| && SkipSpaces(s, r) == SkipSpaces(s, i)
    {
      r := r + 1;
    }
  }

  method TableEndLoop(s: string, i: nat) returns (r: nat)
    requires i <= |s|
    ensures r == TableEnd(s, i)
  {
    r := i;
    while r < |s| && !EndsTable(s[r])
      invariant i <= r <= |s| && TableEnd(s, r) == TableEnd(s, i)
    {
      r := r + 1;
    }
  }

  /** What stands at `start`: a subquery, found with the parenthesis loop, or a table name. */
  method ReferenceAtLoop(sql: string, start: nat) returns (r: Reference)
    requires start <= |sql|
    ensures r == ReferenceAt(sql, start)
  {
    if At(sql, start, '(') {
      var close := MatchingParen(sql, start);
      CloseIsFirst(sql, start, close);
      if close.None? || close.value <= start {
        return Missing;
      }
      return Subquery(sql[start + 1..close.value]);
    }
    var tableEnd := TableEndLoop(sql, start);
    var table := Trim(sql[start..tableEnd]);
    return if table == "" then Missing else Table(table);
  }

  method FirstTableName(sql: string) returns (r: Option<string>)
    ensures r == FirstTable(sql)
    decreases |sql|
  {
    var found := FindKeyword(sql, FROM);
    KeywordIsFirst(sql, FROM, found);
    if found.None? {
      return None;
    }
    var tableStart := SkipSpacesLoop(sql, found.value + |FROM|);
    var reference := ReferenceAtLoop(sql, tableStart);
    match reference
    case Missing => return None;
    case Subquery(inner) => r := FirstTableName(inner);
    case Table(table) => return Some(table);
  }

  // ------------------------------------------------------- strip_provider_prefix

  predicate IsProviderName(name: string) {
    name != "" && forall k :: 0 <= k < |name| ==> IsIdent(name[k])
  }

  predicate StartsIdentifier(c: char) {
    IsIdent(c) || c == '"' || c == '`' || c == '['
  }

  /** `name.` stands at a code position, at an identifier boundary, and an identifier or quoted name follows. */
  predicate PrefixAt(s: string, name: string, p: nat) {
    && IsCode(s, 0, p)
    && (p == 0 || (!IsIdent(s[p - 1]) && s[p - 1] != '.'))
    && p + |name| + 1 < |s|
    && s[p..p + |name|] == name
    && s[p + |name|] == '.'
    && StartsIdentifier(s[p + |name| + 1])
  }

  /** Position `i` belongs to a provider prefix. */
  ghost predicate Deleted(s: string, name: string, i: nat) {
    exists p: nat :: p <= i <= p + |name| && PrefixAt(s, name, p)
  }

  /** What is left of the first `i` bytes once every provider prefix is removed. */
  ghost function Kept(s: string, name: string, i: nat): string
    requires i <= |s|
  {
    if i == 0 then ""
    else Kept(s, name, i - 1) + if Deleted(s, name, i - 1) then "" else [s[i - 1]]
  }

  ghost function Stripped(s: string, name: string): string {
    Kept(s, name, |s|)
  }

  /** Every byte of a prefix is a code byte. */
  lemma PrefixIsCode(s: string, name: string, p: nat)
    requires IsProviderName(name) && PrefixAt(s, name, p)
    ensures forall k :: p <= k <= p + |name| ==> IsCode(s, 0, k) && (IsIdent(s[k]) || s[k] == '.')
    ensures forall k :: p <= k < p + |name| ==> s[k] == name[k - p]
    ensures ModeFrom(s, 0, p + |name| + 1) == Code
  {
    forall k | p <= k < p + |name|
      ensures s[k] == name[k - p]
    {
      assert s[p..p + |name|][k - p] == s[k];
    }
    InertRun(s, 0, p, p + |name| + 1);
  }

  /** Prefixes never overlap: none starts strictly after `p` and at or before the byte that follows it. */
  lemma PrefixesApart(s: string, name: string, p: nat, q: nat)
    requires IsProviderName(name) && PrefixAt(s, name, p) && p < q <= p + |name| + 1
    ensures !PrefixAt(s, name, q)
  {
    PrefixIsCode(s, name, p);
    assert IsIdent(s[q - 1]) || s[q - 1] == '.';
  }

  lemma KeptAll(s: string, name: string, i: nat, j: nat)
    requires i <= j <= |s|
    requires forall k :: i <= k < j ==> !Deleted(s, name, k)
    ensures Kept(s, name, j) == Kept(s, name, i) + s[i..j]
    decreases j
  {
    if i < j {
      KeptAll(s, name, i, j - 1);
      assert s[i..j] == s[i..j - 1] + [s[j - 1]];
    }
  }

  lemma KeptNone(s: string, name: string, i: nat, j: nat)
    requires i <= j <= |s|
    requires forall k :: i <= k < j ==> Deleted(s, name, k)
    ensures Kept(s, name, j) == Kept(s, name, i)
    decreases j
  {
    if i < j {
      KeptNone(s, name, i, j - 1);
    }
  }

  /** A byte that is not a code byte is never deleted. */
  lemma NotCodeNotDeleted(s: string, name: string, k: nat)
    requires IsProviderName(name) && !IsCode(s, 0, k)
    ensures !Deleted(s, name, k)
  {
    if p: nat :| p <= k <= p + |name| && PrefixAt(s, name, p) {
      PrefixIsCode(s, name, p);
    }
  }

  /** No prefix that starts before `i` reaches `i`. */
  ghost predicate Clear(s: string, name: string, i: nat) {
    forall p: nat :: p < i && PrefixAt(s, name, p) ==> p + |name| < i
  }

  lemma AfterSkip(s: string, name: string, i: nat, j: nat)
    requires IsProviderName(name) && Clear(s, name, i) && SkippedTo(s, 0, i, j)
    ensures Clear(s, name, j) && Kept(s, name, j) == Kept(s, name, i) + s[i..j]
  {
    forall k | i <= k < j
      ensures !Deleted(s, name, k)
    {
      NotCodeNotDeleted(s, name, k);
    }
    KeptAll(s, name, i, j);
  }

  lemma AfterByte(s: string, name: string, i: nat)
    requires Clear(s, name, i) && i < |s| && !PrefixAt(s, name, i)
    ensures Clear(s, name, i + 1) && Kept(s, name, i + 1) == Kept(s, name, i) + [s[i]]
  {
    forall p: nat | p <= i <= p + |name|
      ensures !PrefixAt(s, name, p)
    {
      assert p == i || p < i;
    }
  }

  lemma AfterPrefix(s: string, name: string, i: nat)
    requires IsProviderName(name) && PrefixAt(s, name, i) && Clear(s, name, i)
    ensures var j := i + |name| + 1;
            Clear(s, name, j) && ModeFrom(s, 0, j) == Code && Kept(s, name, j) == Kept(s, name, i)
  {
    var j := i + |name| + 1;
    PrefixIsCode(s, name, i);
    KeptNone(s, name, i, j);
    forall p: nat | p < j && PrefixAt(s, name, p)
      ensures p + |name| < j
    {
      if i < p {
        PrefixesApart(s, name, i, p);
      }
    }
  }

  /**
   The output of the scan is the statement without its provider prefixes: they are deleted
   and every other byte is kept, in order. The claim is made for names over `[A-Za-z0-9_]`.
   */
  method StripProviderPrefix(sql: string, name: string) returns (out: string)
    ensures name == "" ==> out == sql
    ensures IsProviderName(name) ==> out == Stripped(sql, name)
  {
    if name == "" {
      return sql;
    }
    out := "";
    var i := 0;
    ghost var plain := IsProviderName(name);
    while i < |sql|
      invariant i <= |sql|
      invariant plain ==> i == |sql| || ModeFrom(sql, 0, i) == Code
      invariant plain ==> Clear(sql, name, i) && out == Kept(sql, name, i)
    {
      var start := i;
      ghost var a := if plain then 0 else i;
      match Opening(sql, i) {
        case Quote =>
          i := SkipQuoted(sql, a, start, true);
          out := out + sql[start..i];
        case OpenBracket =>
          i := SkipBracket(sql, a, start);
          out := out + sql[start..i];
        case OpenLine =>
          i := SkipLineComment(sql, a, start, 0);
          out := out + sql[start..i];
        case OpenBlock =>
          i := SkipBlockComment(sql, a, start);
          out := out + sql[start..i];
        case Plain =>
          var end := i + |name|;
          if (i == 0 || (!IsIdent(sql[i - 1]) && sql[i - 1] != '.'))
             && end < |sql|
             && sql[i..end] == name
             && sql[end] == '.'
             && end + 1 < |sql|
             && StartsIdentifier(sql[end + 1])
          {
            if plain {
              AfterPrefix(sql, name, start);
            }
            i := end + 1;
          } else {
            if plain {
              AfterByte(sql, name, start);
            }
            out := out + [sql[i]];
            i := i + 1;
          }
      }
      if plain && !Opening(sql, start).Plain? {
        AfterSkip(sql, name, start, i);
      }
    }
  }
}
