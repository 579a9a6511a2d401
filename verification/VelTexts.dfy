/** Spellings of VEL code. */
module VelTexts {
  // Spellings that the printed form does not have and the parser takes all the same (src/vel.rs): a plus sign
  // before a number, white lines, and lines that are comments.

  import opened Common
  import opened Numerals
  import opened VelParse
  import opened VelProofs

  /** A number may carry a plus sign; one that does not fit 64 bits, an empty text and any other byte are refused. */
  lemma Numbers(n: nat)
    ensures ParseU64(Decimal(n)) == ParseU64("+" + Decimal(n)) == if n <= U64_MAX then Some(n) else None
    ensures ParseU64("").None? && ParseU64("+").None?
  {
    DecimalRoundTrip(n);
    var plus := "+" + Decimal(n);
    assert plus[1..] == Decimal(n) && Decimal(n)[0] != '+';
  }

  lemma OtherTexts(s: string, k: nat)
    requires k < |s| && !IsDigit(s[k]) && (k == 0 ==> s[0] != '+')
    ensures ParseU64(s).None?
  {
    if s[0] == '+' {
      assert s[1..][k - 1] == s[k];
    }
  }

  /** A third argument is the text between two double quotes, and nothing else will do. */
  lemma PrefixQuoted(args: seq<string>)
    requires 3 <= |args|
    ensures PrefixArg(args).Ok? <==> exists text :: args[2] == "\"" + text + "\""
    ensures forall text :: args[2] == "\"" + text + "\"" ==> PrefixArg(args) == Ok(text)
  {
    var a := args[2];
    if PrefixArg(args).Ok? {
      assert a == "\"" + a[1..|a| - 1] + "\"";
    }
    forall text | a == "\"" + text + "\""
      ensures PrefixArg(args) == Ok(text)
    {
      assert a[1..|a| - 1] == text;
    }
  }

  lemma VisibleFirst(gap: string, rest: string)
    requires White(gap) && rest != "" && !IsTrimSpace(rest[0])
    ensures Trim(gap + rest) != "" && Trim(gap + rest)[0] == rest[0]
  {
    var s := gap + rest;
    AllWhite(gap);
    assert forall k :: 0 <= k < |gap| ==> s[k] == gap[k];
    assert s[|gap|] == rest[0];
    TrimStartIs(s, 0, |gap|);
    assert |gap| < TrimEnd(s, |gap|, |s|) by {
      TrimEndSkips(s, |gap|, |s|);
    }
  }

  /** A white line defines nothing. */
  lemma WhiteLine(lines: seq<string>, i: nat, seen: set<string>)
    requires i < |lines| && White(lines[i])
    ensures ParseFrom(lines, i, seen) == ParseFrom(lines, i + 1, seen)
  {
  }

  /** Nor does a line whose first visible byte is `#`, whatever follows. */
  lemma CommentLine(lines: seq<string>, i: nat, seen: set<string>, gap: string, rest: string)
    requires i < |lines| && White(gap) && lines[i] == gap + "#" + rest
    ensures ParseFrom(lines, i, seen) == ParseFrom(lines, i + 1, seen)
  {
    VisibleFirst(gap, "#" + rest);
    assert gap + ("#" + rest) == lines[i];
  }
}
