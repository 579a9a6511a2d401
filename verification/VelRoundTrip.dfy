/** Printing and reading back. */
module VelRoundTrip {
  // The lists a parse can return are exactly the printable ones with distinct names.

  import opened Common
  import opened TextSearch
  import opened VelParse
  import opened VelProofs

  /** Reading back what was printed. */
  lemma ParseInvertsPrint(defs: seq<VarDef>)
    requires AllPrintable(defs) && DistinctNames(defs)
    ensures Parsed(Print(defs)) == Ok(defs)
  {
    var s := Print(defs);
    assert s[0..] == s;
    forall k | 0 <= k < |defs| ensures PlainLine(LineTexts(defs)[k]) {
      LineIsTight(defs[k]);
      NoLineEnd(defs[k]);
    }
    LinesOfJoin(s, 0, LineTexts(defs));
    DefsRead(LineTexts(defs), 0, defs, {});
    assert defs[0..] == defs;
  }

  /** The lists some code parses to are exactly the printable ones with distinct names. */
  lemma ParseReturnsExactlyThePrintable(defs: seq<VarDef>)
    ensures (exists code :: Parsed(code) == Ok(defs)) <==> AllPrintable(defs) && DistinctNames(defs)
  {
    if AllPrintable(defs) && DistinctNames(defs) {
      ParseInvertsPrint(defs);
    }
    forall code | Parsed(code) == Ok(defs) ensures AllPrintable(defs) && DistinctNames(defs) {
      LinesLack(code, 0);
      ParseContinues(LinesFrom(code, 0), 0, {});
    }
  }
}
