/** Shared vocabulary: optional values, results and ASCII character classes. */
module Common {

  datatype Option<+T> = None | Some(value: T)

  /** A row of a result: its fields' names, each with what the field prints. */
  type Row = seq<(string, string)>

  datatype Result<+T, +E> = Ok(value: T) | Err(error: E)

  predicate IsDigit(c: char) {
    '0' <= c <= '9'
  }

  predicate IsAlpha(c: char) {
    'a' <= c <= 'z' || 'A' <= c <= 'Z'
  }

  /** A byte that may start a name: `[A-Za-z_]`. */
  predicate IsNameStart(c: char) {
    IsAlpha(c) || c == '_'
  }

  /** A byte that may continue a name: `[A-Za-z0-9_]`. */
  predicate IsIdent(c: char) {
    IsNameStart(c) || IsDigit(c)
  }

  /** Rust's `is_ascii_whitespace`: vertical tab is not included. */
  predicate IsAsciiSpace(c: char) {
    c == ' ' || c == '\t' || c == '\n' || c == '\r' || c == 12 as char
  }

  /** Rust's `char::is_whitespace` on ASCII, the class `str::trim` removes: vertical tab is included. */
  predicate IsTrimSpace(c: char) {
    IsAsciiSpace(c) || c == 11 as char
  }

  function LowerChar(c: char): char {
    if 'A' <= c <= 'Z' then (c as int + 32) as char else c
  }

  predicate EqIgnoreCase(a: string, b: string) {
    |a| == |b| && forall k :: 0 <= k < |a| ==> LowerChar(a[k]) == LowerChar(b[k])
  }

  /** The index of the first non-white character at or after `i`. */
  function TrimStart(s: string, i: nat): (r: nat)
    requires i <= |s|
    ensures i <= r <= |s|
    ensures r < |s| ==> !IsTrimSpace(s[r])
    decreases |s| - i
  {
    if i < |s| && IsTrimSpace(s[i]) then TrimStart(s, i + 1) else i
  }

  lemma {:induction false} TrimStartSkips(s: string, i: nat)
    requires i <= |s|
    ensures forall k :: i <= k < TrimStart(s, i) ==> IsTrimSpace(s[k])
    decreases |s| - i
  {
    if i < |s| && IsTrimSpace(s[i]) {
      TrimStartSkips(s, i + 1);
    }
  }

  /** The end of the text once white characters are dropped from the right, never before `lo`. */
  function TrimEnd(s: string, lo: nat, i: nat): (r: nat)
    requires lo <= i <= |s|
    ensures lo <= r <= i
    ensures lo < r ==> !IsTrimSpace(s[r - 1])
  {
    if lo < i && IsTrimSpace(s[i - 1]) then TrimEnd(s, lo, i - 1) else i
  }

  lemma {:induction false} TrimEndSkips(s: string, lo: nat, i: nat)
    requires lo <= i <= |s|
    ensures forall k :: TrimEnd(s, lo, i) <= k < i ==> IsTrimSpace(s[k])
  {
    if lo < i && IsTrimSpace(s[i - 1]) {
      TrimEndSkips(s, lo, i - 1);
    }
  }

  lemma {:induction false} TrimEndIs(s: string, lo: nat, i: nat, e: nat)
    requires lo <= e <= i <= |s|
    requires forall k :: e <= k < i ==> IsTrimSpace(s[k])
    requires lo < e ==> !IsTrimSpace(s[e - 1])
    ensures TrimEnd(s, lo, i) == e
    decreases i
  {
    if e < i {
      TrimEndIs(s, lo, i - 1, e);
    }
  }

  function Trim(s: string): (r: string)
    ensures |r| <= |s|
    ensures r != "" ==> !IsTrimSpace(r[0]) && !IsTrimSpace(r[|r| - 1])
  {
    var a := TrimStart(s, 0);
    s[a..TrimEnd(s, a, |s|)]
  }

  predicate White(s: string) {
    forall k :: 0 <= k < |s| ==> IsTrimSpace(s[k])
  }

  lemma AllWhite(s: string)
    requires Trim(s) == ""
    ensures White(s)
  {
    var a := TrimStart(s, 0);
    TrimStartSkips(s, 0);
    TrimEndSkips(s, a, |s|);
  }
}
