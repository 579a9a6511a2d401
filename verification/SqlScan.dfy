/** What is code in a statement. */
module SqlScan {
  // The lexical ground truth shared by the three routing scanners: which bytes of a
  // statement are code and which lie inside quotes, brackets or comments.
  //
  // `Mode` classifies every position from left to right, one byte at a time. A doubled
  // quote closes a region and opens the next one at once, so it needs no case of its own.

  import opened Common

  datatype Mode =
    | Code                // between tokens or inside plain text
    | Quoted(quote: char) // after an opening ', " or `
    | Bracket             // after an opening [
    | LineComment         // from the second dash to the end of the line
    | BlockOpen           // at the star of the opening /*
    | Block               // inside a block comment
    | BlockClose          // at the slash of the closing */

  predicate IsQuote(c: char) {
    c == '\'' || c == '"' || c == '`'
  }

  predicate At(s: string, i: nat, c: char) {
    i < |s| && s[i] == c
  }

  /** The mode of position `i + 1`, given the mode of position `i`. */
  function Step(m: Mode, s: string, i: nat): Mode
    requires i < |s|
  {
    match m
    case Code =>
      if IsQuote(s[i]) then Quoted(s[i])
      else if s[i] == '[' then Bracket
      else if s[i] == '-' && At(s, i + 1, '-') then LineComment
      else if s[i] == '/' && At(s, i + 1, '*') then BlockOpen
      else Code
    case Quoted(q) => if s[i] == q then Code else m
    case Bracket => if s[i] == ']' then Code else m
    case LineComment => if At(s, i + 1, '\n') then Code else m
    case BlockOpen => Block
    case Block => if s[i] == '*' && At(s, i + 1, '/') then BlockClose else m
    case BlockClose => Code
  }

  /** The mode of position `i` when scanning starts, in code, at position `a`. */
  function ModeFrom(s: string, a: nat, i: nat): Mode
    requires a <= i <= |s|
    decreases i
  {
    if i == a then Code else Step(ModeFrom(s, a, i - 1), s, i - 1)
  }

  /** Position `i` holds a code byte: it is in code and opens no quote, bracket or comment. */
  predicate IsCode(s: string, a: nat, i: nat)
    requires a <= i
  {
    i < |s| && ModeFrom(s, a, i) == Code && ModeFrom(s, a, i + 1) == Code
  }

  /** Scanning may be restarted at any position that is in code. */
  lemma {:induction false} Restart(s: string, a: nat, b: nat, i: nat)
    requires a <= b <= i <= |s|
    requires ModeFrom(s, a, b) == Code
    ensures ModeFrom(s, b, i) == ModeFrom(s, a, i)
    decreases i
  {
    if b < i {
      Restart(s, a, b, i - 1);
    }
  }

  /** Bytes that neither open nor close a region nor take part in a two-byte comment mark. */
  predicate Inert(c: char) {
    !IsQuote(c) && c != '[' && c != '-' && c != '/' && c != '*'
  }

  /** A run of inert bytes that starts in code is code throughout. */
  lemma {:induction false} InertRun(s: string, a: nat, i: nat, j: nat)
    requires a <= i <= j <= |s|
    requires ModeFrom(s, a, i) == Code
    requires forall k :: i <= k < j ==> Inert(s[k])
    ensures forall k :: i <= k <= j ==> ModeFrom(s, a, k) == Code
    decreases j
  {
    if i < j {
      InertRun(s, a, i, j - 1);
      assert ModeFrom(s, a, j) == Step(ModeFrom(s, a, j - 1), s, j - 1);
    }
  }

  /** The modes inside a window `s[a..b]` that starts in code are those of the same positions of `s`. */
  lemma {:induction false} Window(s: string, a: nat, b: nat, i: nat)
    requires a <= b <= |s| && i < b - a
    requires ModeFrom(s, 0, a) == Code
    ensures ModeFrom(s[a..b], 0, i) == ModeFrom(s, 0, a + i)
  {
    var w := s[a..b];
    if 0 < i {
      Window(s, a, b, i - 1);
      assert w[i - 1] == s[a + i - 1];
      assert ModeFrom(w, 0, i) == Step(ModeFrom(w, 0, i - 1), w, i - 1);
      assert ModeFrom(s, 0, a + i) == Step(ModeFrom(s, 0, a + i - 1), s, a + i - 1);
    }
  }

  /** The code bytes of a window agree too, if the byte after it cannot finish a two-byte mark. */
  lemma WindowIsCode(s: string, a: nat, b: nat, i: nat)
    requires a <= b <= |s| && i < b - a
    requires ModeFrom(s, 0, a) == Code
    requires b < |s| ==> Inert(s[b])
    ensures IsCode(s[a..b], 0, i) <==> IsCode(s, 0, a + i)
  {
    var w := s[a..b];
    Window(s, a, b, i);
    assert ModeFrom(w, 0, i + 1) == Step(ModeFrom(w, 0, i), w, i);
    assert ModeFrom(s, 0, a + i + 1) == Step(ModeFrom(s, 0, a + i), s, a + i);
  }
}
