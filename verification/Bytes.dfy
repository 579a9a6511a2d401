/** Bytes. */
module Bytes {
  // The classes of bytes that the scanners go by, written out.

  import opened Common
  import opened SqlScan
  import opened SqlRoute

  const DIGITS := "0123456789"
  const UPPER := "ABCDEFGHIJKLMNOPQRSTUVWXYZ"
  const LOWER := "abcdefghijklmnopqrstuvwxyz"

  lemma Digits(c: char)
    ensures IsDigit(c) <==> c in DIGITS
  {
  }

  lemma Letters(c: char)
    ensures 'A' <= c <= 'Z' <==> c in UPPER
    ensures 'a' <= c <= 'z' <==> c in LOWER
  {
  }

  /** The bytes of a word, `[A-Za-z0-9_]`. */
  predicate IsWordByte(c: char) {
    c in UPPER || c in LOWER || c in DIGITS || c == '_'
  }

  lemma Words(c: char)
    ensures IsIdent(c) <==> IsWordByte(c)
    ensures IsNameStart(c) <==> IsWordByte(c) && c !in DIGITS
  {
    Digits(c);
    Letters(c);
  }

  lemma LetterAt(k: nat)
    requires k < 26
    ensures UPPER[k] == ('A' as int + k) as char && LOWER[k] == ('a' as int + k) as char
  {
  }

  /** The two forms of one letter. */
  ghost predicate SameLetter(c: char, d: char) {
    exists k :: 0 <= k < 26 && ((c == UPPER[k] && d == LOWER[k]) || (c == LOWER[k] && d == UPPER[k]))
  }

  /** Letters are compared without their case, all other bytes as they are. */
  lemma Cases(c: char, d: char)
    ensures LowerChar(c) == LowerChar(d) <==> c == d || SameLetter(c, d)
  {
    if SameLetter(c, d) {
      var k :| 0 <= k < 26 && ((c == UPPER[k] && d == LOWER[k]) || (c == LOWER[k] && d == UPPER[k]));
      LetterAt(k);
    } else if 'A' <= c <= 'Z' {
      LetterAt(c as int - 'A' as int);
    } else if 'A' <= d <= 'Z' {
      LetterAt(d as int - 'A' as int);
    }
  }

  /** The white bytes of `is_ascii_whitespace`, and those of `trim`, which has the vertical tab too. */
  lemma Spaces(c: char)
    ensures IsAsciiSpace(c) <==> c in " \t\n\r" || c as int == 12
    ensures IsTrimSpace(c) <==> c in " \t\n\r" || c as int == 12 || c as int == 11
  {
  }

  lemma Quotes(c: char)
    ensures IsQuote(c) <==> c in "'\"`"
  {
  }

  lemma EndBytes(c: char)
    ensures EndsTable(c) <==> c in " \t\n\r;,)" || c as int == 12
  {
  }

  /** What may start an identifier: a byte of a word, or an opening quote of an identifier. */
  predicate StartsName(c: char) {
    IsWordByte(c) || c in "\"`["
  }

  lemma NameStarts(c: char)
    ensures StartsIdentifier(c) <==> StartsName(c)
  {
    Words(c);
  }

  lemma DotBehind(s: string, name: string, p: nat)
    requires p + |name| < |s|
    ensures s[p..p + |name| + 1] == name + "." <==> s[p..p + |name|] == name && s[p + |name|] == '.'
  {
    var t := s[p..p + |name| + 1];
    assert t == s[p..p + |name|] + [s[p + |name|]];
    if t == name + "." {
      assert t[..|name|] == name && t[|name|] == '.';
      assert t[..|name|] == s[p..p + |name|];
    }
  }

  /**
   The bytes of a provider prefix: `name.` at a code position, behind neither a word byte nor a dot, and before
   a word byte, a quote of an identifier or a bracket.
   */
  lemma PrefixBytes(s: string, name: string, p: nat)
    ensures PrefixAt(s, name, p) <==>
              && IsCode(s, 0, p) && (p == 0 || !(IsWordByte(s[p - 1]) || s[p - 1] == '.'))
              && p + |name| + 1 < |s| && s[p..p + |name| + 1] == name + "."
              && StartsName(s[p + |name| + 1])
  {
    if p + |name| + 1 < |s| {
      NameStarts(s[p + |name| + 1]);
      DotBehind(s, name, p);
    }
    if 0 < p <= |s| {
      Words(s[p - 1]);
    }
  }

  /**
   Exactly the bytes of prefixes are removed: a code position that begins one is deleted with the name
   and the dot.
   */
  lemma DeletedBytes(s: string, name: string, p: nat)
    requires PrefixAt(s, name, p)
    ensures forall k :: p <= k <= p + |name| ==> Deleted(s, name, k)
    ensures p + |name| + 1 <= |s| && Kept(s, name, p + |name| + 1) == Kept(s, name, p)
  {
    forall k | p <= k <= p + |name|
      ensures Deleted(s, name, k)
    {
    }
    KeptNone(s, name, p, p + |name| + 1);
  }
}
