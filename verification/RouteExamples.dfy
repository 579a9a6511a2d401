/** Routing by example. */
module RouteExamples {
  // What routing does to the plain statements its documentation and tests start from (src/sql_route.rs), for
  // every provider name and every spelling of the table.

  import opened Common
  import opened SqlScan
  import opened SqlRoute
  import opened Bytes

  const SELECT := "select * from "

  /** A byte that ends a table: white, `;`, `,` or `)`. */
  predicate Ends(c: char) {
    c in " \t\n\r;,)" || c as int == 12
  }

  /** A table as it may be written behind a provider: quoted or not, with no dot, end or white byte in it. */
  predicate IsTableText(table: string) {
    table != "" && forall k :: 0 <= k < |table| ==> table[k] != '.' && !Ends(table[k]) && table[k] as int != 11
  }

  predicate IsTail(tail: string) {
    '.' !in tail && (tail == "" || Ends(tail[0]))
  }

  function Statement(name: string, table: string, tail: string): string {
    SELECT + name + "." + table + tail
  }

  // ------------------------------------------------------------------ where things stand

  lemma SelectBytes()
    ensures |SELECT| == 14 && SELECT[13] == ' ' && '.' !in SELECT
  {
  }

  lemma TextBytes(table: string)
    requires IsTableText(table)
    ensures forall k :: 0 <= k < |table| ==> table[k] != '.' && !EndsTable(table[k]) && !IsTrimSpace(table[k])
  {
    forall k | 0 <= k < |table|
      ensures !EndsTable(table[k]) && !IsTrimSpace(table[k])
    {
      EndBytes(table[k]);
      Spaces(table[k]);
    }
  }

  lemma NameBytes(name: string)
    requires IsProviderName(name)
    ensures forall k :: 0 <= k < |name| ==>
              name[k] != '.' && name[k] != '(' && !EndsTable(name[k]) && !IsTrimSpace(name[k])
  {
  }

  lemma Layout(name: string, table: string, tail: string)
    ensures var s, d := Statement(name, table, tail), 14 + |name|;
            && |s| == d + 1 + |table| + |tail| && s[..14] == SELECT && s[d] == '.'
            && (forall k :: 0 <= k < |name| ==> s[14 + k] == name[k])
            && (forall k :: 0 <= k < |table| ==> s[d + 1 + k] == table[k])
            && (forall k :: 0 <= k < |tail| ==> s[d + 1 + |table| + k] == tail[k])
  {
    SelectBytes();
    LayoutOf(SELECT, name, table, tail);
  }

  lemma LayoutOf(head: string, name: string, table: string, tail: string)
    ensures var s, d := head + name + "." + table + tail, |head| + |name|;
            && |s| == d + 1 + |table| + |tail| && s[..|head|] == head && s[d] == '.'
            && (forall k :: 0 <= k < |name| ==> s[|head| + k] == name[k])
            && (forall k :: 0 <= k < |table| ==> s[d + 1 + k] == table[k])
            && (forall k :: 0 <= k < |tail| ==> s[d + 1 + |table| + k] == tail[k])
  {
  }

  /** The bytes before the table's provider are code. */
  lemma SelectIsCode(s: string)
    requires 14 < |s| && s[..14] == SELECT
    ensures forall k :: 0 <= k <= 14 ==> ModeFrom(s, 0, k) == Code
  {
    assert forall k :: 0 <= k < 14 ==> s[k] == s[..14][k];
    InertRun(s, 0, 0, 7);
    assert s[7] == '*' && ModeFrom(s, 0, 8) == Step(Code, s, 7) == Code;
    InertRun(s, 0, 8, 14);
  }

  lemma FromIsFirst(s: string)
    requires 14 < |s| && s[..14] == SELECT
    ensures KeywordFrom(s, FROM, 0) == Some(9)
  {
    SelectIsCode(s);
    assert forall k :: 0 <= k < 14 ==> s[k] == s[..14][k];
    assert s[9..13] == "from";
    assert KeywordAt(s, FROM, 9);
    forall j | 0 <= j < 9
      ensures !KeywordAt(s, FROM, j)
    {
      assert LowerChar(s[j]) != 'f';
      assert s[j..j + 4][0] == s[j];
    }
    KeywordIsFirst(s, FROM, Some(9));
  }

  lemma {:induction false} TableEndIs(s: string, i: nat, e: nat)
    requires i <= e <= |s| && (forall k :: i <= k < e ==> !EndsTable(s[k])) && (e == |s| || EndsTable(s[e]))
    ensures TableEnd(s, i) == e
    decreases e - i
  {
    if i < e {
      TableEndIs(s, i + 1, e);
    }
  }

  // ------------------------------------------------------------------ the first table

  /** The first table is what stands between `from` and the next white byte, `;`, `,` or `)`. */
  lemma FirstTableIs(name: string, table: string, tail: string)
    requires IsProviderName(name) && IsTableText(table) && IsTail(tail)
    ensures FirstTable(Statement(name, table, tail)) == Some(name + "." + table)
  {
    var s := Statement(name, table, tail);
    StartsAtName(s, name, table, tail);
    ReferenceIs(s, name, table, tail);
    assert FirstReference(s) == ReferenceAt(s, 14) == Table(name + "." + table);
  }

  lemma StartsAtName(s: string, name: string, table: string, tail: string)
    requires s == Statement(name, table, tail) && IsProviderName(name)
    ensures 14 < |s| && s[14] == name[0] && KeywordFrom(s, FROM, 0) == Some(9) && TableStart(s, 9) == 14
  {
    Layout(name, table, tail);
    FromIsFirst(s);
    NameBytes(name);
    SelectBytes();
    assert s[13] == s[..14][13] && s[14] == name[0];
    assert SkipSpaces(s, 14) == 14;
  }

  lemma ReferenceIs(s: string, name: string, table: string, tail: string)
    requires s == Statement(name, table, tail) && IsProviderName(name) && IsTableText(table) && IsTail(tail)
    ensures 14 < |s| && ReferenceAt(s, 14) == Table(name + "." + table)
  {
    var e := 14 + |name| + 1 + |table|;
    Layout(name, table, tail);
    NameBytes(name);
    assert s[14] == name[0];
    TextHasNoEnd(s, name, table, tail);
    TableEndIs(s, 14, e);
    assert s[14..e] == name + "." + table;
    TextBytes(table);
    TrimNothing(name + "." + table);
  }

  /** The name, the dot and the table hold no end, and what follows starts with one. */
  lemma TextHasNoEnd(s: string, name: string, table: string, tail: string)
    requires s == Statement(name, table, tail) && IsProviderName(name) && IsTableText(table) && IsTail(tail)
    ensures var e := 14 + |name| + 1 + |table|;
            && e <= |s| && (forall k :: 14 <= k < e ==> !EndsTable(s[k])) && (e == |s| || EndsTable(s[e]))
  {
    var d := 14 + |name|;
    var e := d + 1 + |table|;
    Layout(name, table, tail);
    TextBytes(table);
    NameBytes(name);
    forall k | 14 <= k < e
      ensures !EndsTable(s[k])
    {
      if k < d {
        assert s[k] == name[k - 14];
      } else if d < k {
        assert s[k] == table[k - d - 1];
      }
    }
    if e < |s| {
      assert s[e] == tail[0];
      EndBytes(tail[0]);
    }
  }

  lemma TrimNothing(t: string)
    requires t != "" && !IsTrimSpace(t[0]) && !IsTrimSpace(t[|t| - 1])
    ensures Trim(t) == t
  {
    assert TrimStart(t, 0) == 0 && TrimEnd(t, 0, |t|) == |t|;
  }

  // --------------------------------------------------------------------- stripping

  /** The statement has one dot. */
  lemma OneDot(name: string, table: string, tail: string, k: nat)
    requires IsProviderName(name) && IsTableText(table) && IsTail(tail)
    requires k < |Statement(name, table, tail)| && k != 14 + |name|
    ensures Statement(name, table, tail)[k] != '.'
  {
    var s, d := Statement(name, table, tail), 14 + |name|;
    Layout(name, table, tail);
    SelectBytes();
    NameBytes(name);
    if k < 14 {
      assert s[k] == s[..14][k];
    } else if k < d {
      assert s[k] == name[k - 14];
    } else if k < d + 1 + |table| {
      assert s[k] == table[k - d - 1];
    } else {
      assert s[k] == tail[k - (d + 1 + |table|)];
    }
  }

  lemma NoOtherPrefix(name: string, table: string, tail: string, q: nat)
    requires IsProviderName(name) && IsTableText(table) && IsTail(tail) && q != 14
    ensures !PrefixAt(Statement(name, table, tail), name, q)
  {
    if q + |name| < |Statement(name, table, tail)| {
      OneDot(name, table, tail, q + |name|);
    }
  }

  /** The provider's name and its dot are the only prefix there can be. */
  lemma PrefixIs(name: string, table: string, tail: string)
    requires IsProviderName(name) && IsTableText(table) && IsTail(tail)
    ensures PrefixAt(Statement(name, table, tail), name, 14) <==> StartsIdentifier(table[0])
  {
    var s, d := Statement(name, table, tail), 14 + |name|;
    Layout(name, table, tail);
    SelectIsCode(s);
    SelectBytes();
    assert s[14] == name[0] && s[d + 1] == table[0] && s[13] == s[..14][13];
    InertRun(s, 0, 14, 15);
    assert s[14..d] == name;
  }

  /**
   The provider's name and its dot go exactly when a word byte, a double quote, a backtick or an opening bracket
   follows.
   */
  lemma StrippedIs(name: string, table: string, tail: string)
    requires IsProviderName(name) && IsTableText(table) && IsTail(tail)
    ensures Stripped(Statement(name, table, tail), name) ==
              if StartsName(table[0]) then SELECT + table + tail
              else Statement(name, table, tail)
  {
    PrefixIs(name, table, tail);
    NameStarts(table[0]);
    if StartsName(table[0]) {
      PrefixGoes(Statement(name, table, tail), name, table, tail);
    } else {
      AllStays(Statement(name, table, tail), name, table, tail);
    }
  }

  lemma PrefixGoes(s: string, name: string, table: string, tail: string)
    requires s == Statement(name, table, tail) && IsProviderName(name) && IsTableText(table) && IsTail(tail)
    requires PrefixAt(s, name, 14)
    ensures Stripped(s, name) == SELECT + table + tail
  {
    forall q: nat | q != 14
      ensures !PrefixAt(s, name, q)
    {
      NoOtherPrefix(name, table, tail, q);
    }
    OnePrefixGoes(s, name, 14);
    Rejoined(s, name, table, tail);
  }

  lemma AllStays(s: string, name: string, table: string, tail: string)
    requires s == Statement(name, table, tail) && IsProviderName(name) && IsTableText(table) && IsTail(tail)
    requires !PrefixAt(s, name, 14)
    ensures Stripped(s, name) == s
  {
    forall q: nat
      ensures !PrefixAt(s, name, q)
    {
      if q != 14 {
        NoOtherPrefix(name, table, tail, q);
      }
    }
    KeptAll(s, name, 0, |s|);
    assert s[0..|s|] == s;
  }

  lemma Rejoined(s: string, name: string, table: string, tail: string)
    requires s == Statement(name, table, tail)
    ensures |s| >= 15 + |name| && s[..14] + s[14 + |name| + 1..] == SELECT + table + tail
  {
    Layout(name, table, tail);
    assert s[14 + |name| + 1..] == table + tail;
  }

  /** A statement with one prefix, without it. */
  lemma OnePrefixGoes(s: string, name: string, p: nat)
    requires PrefixAt(s, name, p) && forall q: nat :: q != p ==> !PrefixAt(s, name, q)
    ensures Stripped(s, name) == s[..p] + s[p + |name| + 1..]
  {
    var e := p + |name| + 1;
    KeptAll(s, name, 0, p);
    DeletedBytes(s, name, p);
    KeptAll(s, name, e, |s|);
    assert s[0..p] == s[..p] && s[e..|s|] == s[e..];
  }

  /** A plain table, the three quoted spellings, and a byte that starts no identifier. */
  lemma Spellings(tail: string)
    requires IsTail(tail)
    ensures Stripped(Statement("pg", "t", tail), "pg") == SELECT + "t" + tail
    ensures Stripped(Statement("pg", "\"T\"", tail), "pg") == SELECT + "\"T\"" + tail
    ensures Stripped(Statement("pg", "`T`", tail), "pg") == SELECT + "`T`" + tail
    ensures Stripped(Statement("pg", "[T]", tail), "pg") == SELECT + "[T]" + tail
    ensures Stripped(Statement("pg", "$T", tail), "pg") == Statement("pg", "$T", tail)
  {
    Goes("t", 't', tail);
    Goes("\"T\"", '"', tail);
    Goes("`T`", '`', tail);
    Goes("[T]", '[', tail);
    Stays("$T", '$', tail);
  }

  lemma Goes(table: string, first: char, tail: string)
    requires IsTableText(table) && IsTail(tail) && first == table[0] && StartsIdentifier(first)
    ensures Stripped(Statement("pg", table, tail), "pg") == SELECT + table + tail
  {
    NameStarts(first);
    StrippedIs("pg", table, tail);
  }

  lemma Stays(table: string, first: char, tail: string)
    requires IsTableText(table) && IsTail(tail) && first == table[0] && !StartsIdentifier(first)
    ensures Stripped(Statement("pg", table, tail), "pg") == Statement("pg", table, tail)
  {
    NameStarts(first);
    StrippedIs("pg", table, tail);
  }

  /** A table ends at white space, at a comma, at a semicolon, at a closing parenthesis or with the statement. */
  lemma TableEnds(rest: string)
    requires '.' !in rest
    ensures FirstTable(Statement("pg", "t", "")) == Some("pg.t")
    ensures FirstTable(Statement("pg", "t", " " + rest)) == Some("pg.t")
    ensures FirstTable(Statement("pg", "t", "," + rest)) == Some("pg.t")
    ensures FirstTable(Statement("pg", "t", ";" + rest)) == Some("pg.t")
    ensures FirstTable(Statement("pg", "t", ")" + rest)) == Some("pg.t")
  {
    assert "pg" + "." + "t" == "pg.t";
    FirstTableIs("pg", "t", "");
    FirstTableIs("pg", "t", " " + rest);
    FirstTableIs("pg", "t", "," + rest);
    FirstTableIs("pg", "t", ";" + rest);
    FirstTableIs("pg", "t", ")" + rest);
  }
}
