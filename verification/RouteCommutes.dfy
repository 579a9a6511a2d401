/** Routing and stripping. */
module RouteCommutes {
  // Routing commutes with prefix stripping: the first table of the stripped statement is the
  // stripped first table of the statement, through any depth of subqueries.
  //
  // Throughout, `Pos(s, name, i)` is where position `i` of the statement lands in the stripped one.

  import opened Common
  import opened SqlScan
  import opened SqlRoute

  ghost function Pos(s: string, name: string, i: nat): nat
    requires i <= |s|
  {
    |Kept(s, name, i)|
  }

  lemma {:induction false} KeptPrefix(s: string, name: string, i: nat, k: nat)
    requires i <= k <= |s|
    ensures Kept(s, name, i) <= Kept(s, name, k)
    decreases k
  {
    if i < k {
      KeptPrefix(s, name, i, k - 1);
    }
  }

  /** The byte that follows a prefix is kept. */
  lemma AfterPrefixKept(s: string, name: string, p: nat)
    requires IsProviderName(name) && PrefixAt(s, name, p)
    ensures !Deleted(s, name, p + |name| + 1)
  {
    forall q: nat | q <= p + |name| + 1 <= q + |name|
      ensures !PrefixAt(s, name, q)
    {
      PrefixesApart(s, name, p, q);
    }
  }

  /** A kept byte reappears at its position. */
  lemma KeptByteAt(s: string, name: string, i: nat)
    requires i < |s| && !Deleted(s, name, i)
    ensures Pos(s, name, i + 1) == Pos(s, name, i) + 1 <= |Stripped(s, name)|
    ensures Stripped(s, name)[Pos(s, name, i)] == s[i]
  {
    KeptPrefix(s, name, i + 1, |s|);
  }

  /** All bytes of a prefix land at the same position. */
  lemma PrefixCollapses(s: string, name: string, p: nat, i: nat)
    requires PrefixAt(s, name, p) && p <= i <= p + |name| + 1
    ensures Kept(s, name, i) == Kept(s, name, p)
  {
    forall k | p <= k < i
      ensures Deleted(s, name, k)
    {
    }
    KeptNone(s, name, p, i);
  }

  /** Where bytes were deleted, the next byte kept starts an identifier. */
  lemma DeletedByteAt(s: string, name: string, i: nat)
    requires IsProviderName(name) && i < |s| && Deleted(s, name, i)
    ensures Pos(s, name, i + 1) == Pos(s, name, i) < |Stripped(s, name)|
    ensures IsCode(s, 0, i) && (IsIdent(s[i]) || s[i] == '.')
    ensures StartsIdentifier(Stripped(s, name)[Pos(s, name, i)])
  {
    var p: nat :| p <= i <= p + |name| && PrefixAt(s, name, p);
    PrefixIsCode(s, name, p);
    PrefixCollapses(s, name, p, i);
    PrefixCollapses(s, name, p, i + 1);
    NextByteKept(s, name, p);
  }

  lemma NextByteKept(s: string, name: string, p: nat)
    requires IsProviderName(name) && PrefixAt(s, name, p)
    ensures Pos(s, name, p) < |Stripped(s, name)|
    ensures StartsIdentifier(Stripped(s, name)[Pos(s, name, p)])
  {
    var e := p + |name| + 1;
    assert Pos(s, name, e) == Pos(s, name, p) by {
      PrefixCollapses(s, name, p, e);
    }
    assert !Deleted(s, name, e) by {
      AfterPrefixKept(s, name, p);
    }
    KeptByteAt(s, name, e);
  }

  lemma ByteAt(s: string, name: string, i: nat)
    requires IsProviderName(name) && i < |s|
    ensures Pos(s, name, i) <= Pos(s, name, i + 1) && Pos(s, name, i) < |Stripped(s, name)|
    ensures !Deleted(s, name, i) ==>
              Pos(s, name, i + 1) == Pos(s, name, i) + 1 && Stripped(s, name)[Pos(s, name, i)] == s[i]
    ensures Deleted(s, name, i) ==>
              && Pos(s, name, i + 1) == Pos(s, name, i)
              && IsCode(s, 0, i)
              && (IsIdent(s[i]) || s[i] == '.')
              && StartsIdentifier(Stripped(s, name)[Pos(s, name, i)])
  {
    if Deleted(s, name, i) {
      DeletedByteAt(s, name, i);
    } else {
      KeptByteAt(s, name, i);
    }
  }

  /** The byte before a prefix is kept. */
  lemma BeforePrefixKept(s: string, name: string, p: nat)
    requires IsProviderName(name) && PrefixAt(s, name, p) && 0 < p
    ensures !Deleted(s, name, p - 1)
  {
    forall q: nat | q <= p - 1 <= q + |name|
      ensures !PrefixAt(s, name, q)
    {
      if PrefixAt(s, name, q) {
        PrefixesApart(s, name, q, p);
      }
    }
  }

  /** No prefix begins inside a word. */
  lemma WordGoesOn(s: string, name: string, i: nat)
    requires i < |s| && !Deleted(s, name, i) && IsIdent(s[i])
    ensures !Deleted(s, name, i + 1)
  {
    forall p: nat | p <= i + 1 <= p + |name|
      ensures !PrefixAt(s, name, p)
    {
      assert p == i + 1 || p <= i <= p + |name|;
    }
  }

  /** Every byte of the stripped statement comes from a kept byte. */
  lemma {:induction false} Origin(s: string, name: string, i: nat, q: nat) returns (k: nat)
    requires i <= |s| && q < Pos(s, name, i)
    ensures k < i && !Deleted(s, name, k) && Pos(s, name, k) == q
    decreases i
  {
    if Deleted(s, name, i - 1) || q < Pos(s, name, i - 1) {
      k := Origin(s, name, i - 1, q);
    } else {
      k := i - 1;
    }
  }

  /** Outside identifiers, quotes and dots, the byte at a position survives stripping. */
  lemma PlainByte(s: string, name: string, i: nat, c: char)
    requires IsProviderName(name) && i <= |s|
    requires !StartsIdentifier(c) && c != '.'
    ensures At(Stripped(s, name), Pos(s, name, i), c) <==> At(s, i, c)
  {
    if i < |s| {
      ByteAt(s, name, i);
    }
  }

  /** Stripping keeps the mode of every position. */
  lemma {:induction false} ModeKept(s: string, name: string, i: nat)
    requires IsProviderName(name) && i <= |s|
    ensures Pos(s, name, i) <= |Stripped(s, name)|
    ensures ModeFrom(Stripped(s, name), 0, Pos(s, name, i)) == ModeFrom(s, 0, i)
    decreases i
  {
    KeptPrefix(s, name, i, |s|);
    if 0 < i {
      ModeKept(s, name, i - 1);
      ByteAt(s, name, i - 1);
      PlainByte(s, name, i, '-');
      PlainByte(s, name, i, '*');
      PlainByte(s, name, i, '/');
      PlainByte(s, name, i, '\n');
    }
  }

  lemma CodeKept(s: string, name: string, i: nat)
    requires IsProviderName(name) && i < |s| && !Deleted(s, name, i)
    ensures IsCode(Stripped(s, name), 0, Pos(s, name, i)) <==> IsCode(s, 0, i)
  {
    ModeKept(s, name, i);
    ModeKept(s, name, i + 1);
    ByteAt(s, name, i);
  }

  // ------------------------------------------------------------------- keywords

  /** A word that starts on a kept byte of the statement is kept whole. */
  lemma {:induction false} WordForth(s: string, name: string, i: nat, m: nat)
    requires IsProviderName(name) && i + m <= |s| && (0 < m ==> !Deleted(s, name, i))
    requires forall k :: i <= k < i + m ==> IsIdent(s[k])
    ensures forall k :: i <= k < i + m ==> !Deleted(s, name, k)
    ensures Pos(s, name, i + m) == Pos(s, name, i) + m <= |Stripped(s, name)|
    ensures s[i..i + m] == Stripped(s, name)[Pos(s, name, i)..Pos(s, name, i) + m]
    decreases m
  {
    if m == 0 {
      KeptPrefix(s, name, i, |s|);
    } else {
      WordForth(s, name, i, m - 1);
      if 1 < m {
        WordGoesOn(s, name, i + m - 2);
      }
      ByteAt(s, name, i + m - 1);
      assert s[i..i + m] == s[i..i + m - 1] + [s[i + m - 1]];
    }
  }

  /** A word of the stripped statement that starts at the image of a kept byte was a word before. */
  lemma {:induction false} WordBack(s: string, name: string, i: nat, m: nat)
    requires IsProviderName(name) && i < |s| && !Deleted(s, name, i)
    requires Pos(s, name, i) + m <= |Stripped(s, name)|
    requires forall k :: Pos(s, name, i) <= k < Pos(s, name, i) + m ==> IsIdent(Stripped(s, name)[k])
    ensures i + m <= |s|
    ensures forall k :: i <= k < i + m ==> IsIdent(s[k])
    decreases m
  {
    if 0 < m {
      WordBack(s, name, i, m - 1);
      WordForth(s, name, i, m - 1);
      var k := i + m - 1;
      if 1 < m {
        WordGoesOn(s, name, k - 1);
      }
      ByteAt(s, name, k);
    }
  }

  /** A kept byte right after a prefix has only what stood before the prefix on its left. */
  lemma LeftOfPrefix(s: string, name: string, i: nat)
    requires IsProviderName(name) && 0 < i < |s| && !Deleted(s, name, i) && Deleted(s, name, i - 1)
    ensures s[i - 1] == '.'
    ensures Pos(s, name, i) <= |Stripped(s, name)|
    ensures Pos(s, name, i) == 0 || !IsIdent(Stripped(s, name)[Pos(s, name, i) - 1])
  {
    var p: nat :| p <= i - 1 <= p + |name| && PrefixAt(s, name, p);
    assert i == p + |name| + 1;
    PrefixCollapses(s, name, p, i);
    KeptPrefix(s, name, i, |s|);
    if 0 < p {
      BeforePrefixKept(s, name, p);
      KeptByteAt(s, name, p - 1);
    }
  }

  /** An identifier boundary on the left survives stripping, both ways. */
  lemma BoundaryKept(s: string, name: string, i: nat)
    requires IsProviderName(name) && i < |s| && !Deleted(s, name, i)
    ensures Pos(s, name, i) < |Stripped(s, name)|
    ensures (i == 0 || !IsIdent(s[i - 1])) <==>
            (Pos(s, name, i) == 0 || !IsIdent(Stripped(s, name)[Pos(s, name, i) - 1]))
  {
    KeptByteAt(s, name, i);
    if 0 < i {
      if Deleted(s, name, i - 1) {
        LeftOfPrefix(s, name, i);
      } else {
        KeptByteAt(s, name, i - 1);
      }
    }
  }

  lemma FromIsWord(w: string)
    requires EqIgnoreCase(w, FROM)
    ensures |w| == 4 && forall k :: 0 <= k < 4 ==> IsIdent(w[k])
  {
    assert LowerChar(w[0]) == 'f' && LowerChar(w[1]) == 'r' && LowerChar(w[2]) == 'o' && LowerChar(w[3]) == 'm';
  }

  /** The byte after a word that starts at a kept byte bounds it before and after stripping alike. */
  lemma RightBoundary(s: string, name: string, i: nat, m: nat)
    requires IsProviderName(name) && 0 < m && i + m <= |s| && !Deleted(s, name, i)
    requires forall k :: i <= k < i + m ==> IsIdent(s[k])
    ensures var e := Pos(s, name, i) + m;
            && Pos(s, name, i + m) == e <= |Stripped(s, name)|
            && s[i..i + m] == Stripped(s, name)[Pos(s, name, i)..e]
            && ((i + m == |s| || !IsIdent(s[i + m])) <==> (e == |Stripped(s, name)| || !IsIdent(Stripped(s, name)[e])))
  {
    WordForth(s, name, i, m);
    if i + m < |s| {
      WordGoesOn(s, name, i + m - 1);
      KeptByteAt(s, name, i + m);
    }
  }

  lemma WordIsIdent(s: string, i: nat)
    requires i + 4 <= |s| && EqIgnoreCase(s[i..i + 4], FROM)
    ensures forall k :: i <= k < i + 4 ==> IsIdent(s[k])
  {
    var w := s[i..i + 4];
    FromIsWord(w);
    assert forall k :: i <= k < i + 4 ==> s[k] == w[k - i];
  }

  lemma WordKeptForth(s: string, name: string, i: nat)
    requires IsProviderName(name) && i < |s| && !Deleted(s, name, i) && WordAt(s, FROM, i)
    ensures WordAt(Stripped(s, name), FROM, Pos(s, name, i))
  {
    WordIsIdent(s, i);
    BoundaryKept(s, name, i);
    RightBoundary(s, name, i, 4);
  }

  lemma WordKeptBack(s: string, name: string, i: nat)
    requires IsProviderName(name) && i < |s| && !Deleted(s, name, i) && WordAt(Stripped(s, name), FROM, Pos(s, name, i))
    ensures WordAt(s, FROM, i)
  {
    WordIsIdent(Stripped(s, name), Pos(s, name, i));
    BoundaryKept(s, name, i);
    WordBack(s, name, i, 4);
    RightBoundary(s, name, i, 4);
  }

  lemma WordKept(s: string, name: string, i: nat)
    requires IsProviderName(name) && i < |s| && !Deleted(s, name, i)
    ensures WordAt(Stripped(s, name), FROM, Pos(s, name, i)) <==> WordAt(s, FROM, i)
  {
    if WordAt(s, FROM, i) {
      WordKeptForth(s, name, i);
    } else if WordAt(Stripped(s, name), FROM, Pos(s, name, i)) {
      WordKeptBack(s, name, i);
    }
  }

  /** A keyword inside a prefix is the whole of its name. */
  lemma DeletedKeyword(s: string, name: string, i: nat)
    requires IsProviderName(name) && Deleted(s, name, i) && KeywordAt(s, FROM, i)
    ensures PrefixAt(s, name, i) && EqIgnoreCase(name, FROM)
  {
    var p: nat :| p <= i <= p + |name| && PrefixAt(s, name, p);
    PrefixIsCode(s, name, p);
    FromBytes(s, i);
    assert i == p;
    WordUpToDot(s, name, i);
  }

  lemma FromBytes(s: string, kw: nat)
    requires KeywordAt(s, FROM, kw)
    ensures forall k :: kw <= k < kw + 4 ==> IsIdent(s[k])
  {
    var w := s[kw..kw + 4];
    FromIsWord(w);
    assert forall k :: kw <= k < kw + 4 ==> s[k] == w[k - kw];
  }

  lemma WordUpToDot(s: string, name: string, i: nat)
    requires IsProviderName(name) && PrefixAt(s, name, i) && KeywordAt(s, FROM, i)
    requires forall k :: i <= k < i + 4 ==> IsIdent(s[k])
    requires forall k :: i <= k < i + |name| ==> IsIdent(s[k])
    ensures EqIgnoreCase(name, FROM)
  {
    assert |name| == 4;
    assert s[i..i + 4] == name;
  }

  /** The first keyword of the stripped statement is the image of the first one, if that is kept. */
  lemma FirstKeywordKept(s: string, name: string)
    requires IsProviderName(name)
    requires KeywordFrom(s, FROM, 0).Some? ==> !Deleted(s, name, KeywordFrom(s, FROM, 0).value)
    ensures var r := KeywordFrom(s, FROM, 0);
            KeywordFrom(Stripped(s, name), FROM, 0) == if r.Some? then Some(Pos(s, name, r.value)) else None
  {
    var s', r := Stripped(s, name), KeywordFrom(s, FROM, 0);
    var r' := if r.Some? then Some(Pos(s, name, r.value)) else None;
    if r.Some? {
      CodeKept(s, name, r.value);
      WordKept(s, name, r.value);
    }
    forall j | 0 <= j < (if r'.Some? then r'.value else |s'|)
      ensures !KeywordAt(s', FROM, j)
    {
      var i := Origin(s, name, if r.Some? then r.value else |s|, j);
      CodeKept(s, name, i);
      WordKept(s, name, i);
      assert !KeywordAt(s, FROM, i);
    }
    KeywordIsFirst(s', FROM, r');
  }

  // ------------------------------------------------------------------- segments

  lemma {:induction false} SkipSpacesKept(s: string, name: string, i: nat)
    requires IsProviderName(name) && i <= |s|
    ensures Pos(s, name, i) <= |Stripped(s, name)|
    ensures SkipSpaces(Stripped(s, name), Pos(s, name, i)) == Pos(s, name, SkipSpaces(s, i))
    decreases |s| - i
  {
    KeptPrefix(s, name, i, |s|);
    if i < |s| {
      ByteAt(s, name, i);
      if IsAsciiSpace(s[i]) {
        SkipSpacesKept(s, name, i + 1);
      }
    }
  }

  lemma {:induction false} TrimStartKept(s: string, name: string, i: nat)
    requires IsProviderName(name) && i <= |s|
    ensures Pos(s, name, i) <= |Stripped(s, name)|
    ensures TrimStart(Stripped(s, name), Pos(s, name, i)) == Pos(s, name, TrimStart(s, i))
    decreases |s| - i
  {
    KeptPrefix(s, name, i, |s|);
    if i < |s| {
      ByteAt(s, name, i);
      if IsTrimSpace(s[i]) {
        TrimStartKept(s, name, i + 1);
      }
    }
  }

  lemma {:induction false} TableEndKept(s: string, name: string, i: nat)
    requires IsProviderName(name) && i <= |s|
    ensures Pos(s, name, i) <= |Stripped(s, name)|
    ensures TableEnd(Stripped(s, name), Pos(s, name, i)) == Pos(s, name, TableEnd(s, i))
    decreases |s| - i
  {
    KeptPrefix(s, name, i, |s|);
    if i < |s| {
      ByteAt(s, name, i);
      if !EndsTable(s[i]) {
        TableEndKept(s, name, i + 1);
      }
    }
  }

  /** `s[a..b]` may be scanned and stripped on its own. */
  ghost predicate Detachable(s: string, name: string, a: nat, b: nat) {
    && a <= b <= |s|
    && ModeFrom(s, 0, a) == Code
    && Clear(s, name, a)
    && (a == 0 || a == |s| || !IsIdent(s[a]) || (!IsIdent(s[a - 1]) && s[a - 1] != '.'))
    && (b < |s| ==> Inert(s[b]) && !StartsIdentifier(s[b]) && s[b] != '.')
  }

  lemma SliceOfSlice(s: string, a: nat, b: nat, k: nat, e: nat)
    requires a <= b <= |s| && k <= e <= b - a
    ensures s[a..b][k..e] == s[a + k..a + e]
  {
    var x, y := s[a..b][k..e], s[a + k..a + e];
    assert |x| == |y|;
    forall j | 0 <= j < |x|
      ensures x[j] == y[j]
    {
      assert x[j] == s[a..b][k + j];
    }
  }

  lemma WindowPrefixIn(s: string, name: string, a: nat, b: nat, k: nat)
    requires IsProviderName(name) && Detachable(s, name, a, b) && k < b - a && PrefixAt(s, name, a + k)
    ensures PrefixAt(s[a..b], name, k)
  {
    var e := k + |name|;
    WindowIsCode(s, a, b, k);
    PrefixEndsBefore(s, name, a + k, b);
    SliceOfSlice(s, a, b, k, e);
  }

  /** A prefix that starts before a byte that cannot belong to one ends before it, with the identifier's first byte. */
  lemma PrefixEndsBefore(s: string, name: string, p: nat, b: nat)
    requires IsProviderName(name) && PrefixAt(s, name, p) && p < b <= |s|
    requires b < |s| ==> !StartsIdentifier(s[b]) && s[b] != '.'
    ensures p + |name| + 1 < b && s[p] == name[0]
  {
    PrefixIsCode(s, name, p);
  }

  lemma WindowPrefixOut(s: string, name: string, a: nat, b: nat, k: nat)
    requires IsProviderName(name) && Detachable(s, name, a, b) && k < b - a && PrefixAt(s[a..b], name, k)
    ensures PrefixAt(s, name, a + k)
  {
    var w, e := s[a..b], k + |name|;
    WindowIsCode(s, a, b, k);
    SliceOfSlice(s, a, b, k, e);
    assert w[k] == w[k..e][0];
  }

  lemma WindowDeleted(s: string, name: string, a: nat, b: nat, k: nat)
    requires IsProviderName(name) && Detachable(s, name, a, b) && k < b - a
    ensures Deleted(s[a..b], name, k) <==> Deleted(s, name, a + k)
  {
    if p: nat :| p <= k <= p + |name| && PrefixAt(s[a..b], name, p) {
      WindowPrefixOut(s, name, a, b, p);
    }
    if q: nat :| q <= a + k <= q + |name| && PrefixAt(s, name, q) {
      assert a <= q;
      WindowPrefixIn(s, name, a, b, q - a);
    }
  }

  /** Stripping a detachable window alone gives the matching stretch of the stripped statement. */
  lemma {:induction false} WindowKept(s: string, name: string, a: nat, b: nat, k: nat)
    requires IsProviderName(name) && Detachable(s, name, a, b) && k <= b - a
    ensures Kept(s, name, a + k) == Kept(s, name, a) + Kept(s[a..b], name, k)
    decreases k
  {
    if 0 < k {
      WindowKept(s, name, a, b, k - 1);
      WindowDeleted(s, name, a, b, k - 1);
    }
  }

  lemma SegmentKept(s: string, name: string, a: nat, b: nat)
    requires IsProviderName(name) && Detachable(s, name, a, b)
    ensures Pos(s, name, a) <= Pos(s, name, b) <= |Stripped(s, name)|
    ensures Stripped(s, name)[Pos(s, name, a)..Pos(s, name, b)] == Stripped(s[a..b], name)
  {
    WindowKept(s, name, a, b, b - a);
    KeptPrefix(s, name, a, b);
    KeptPrefix(s, name, b, |s|);
    assert Stripped(s, name)[..Pos(s, name, b)] == Kept(s, name, b);
  }

  lemma TrimIs(s: string, a: nat, b: nat)
    requires a == TrimStart(s, 0) && b == TrimEnd(s, a, |s|)
    ensures Trim(s) == s[a..b]
  {
  }

  /** Where the trimmed text starts and ends in the stripped statement. */
  lemma TrimEndsKept(raw: string, name: string, a: nat, b: nat)
    requires IsProviderName(name) && a == TrimStart(raw, 0) && b == TrimEnd(raw, a, |raw|)
    ensures Pos(raw, name, a) == TrimStart(Stripped(raw, name), 0)
    ensures Pos(raw, name, b) == TrimEnd(Stripped(raw, name), Pos(raw, name, a), |Stripped(raw, name)|)
    ensures a < b ==> Pos(raw, name, a) < Pos(raw, name, b)
  {
    TrimStartKept(raw, name, 0);
    TrimEndSkips(raw, a, |raw|);
    if a < b {
      LastByteKept(raw, name, b);
      KeptPrefix(raw, name, a, b - 1);
    }
    TrimEndKept(raw, name, a);
  }

  /** Trimming commutes with stripping, and stripping never makes a trimmed name empty. */
  lemma TrimKept(raw: string, name: string)
    requires IsProviderName(name)
    ensures Trim(Stripped(raw, name)) == Stripped(Trim(raw), name)
    ensures Stripped(Trim(raw), name) == "" <==> Trim(raw) == ""
  {
    var a := TrimStart(raw, 0);
    var b := TrimEnd(raw, a, |raw|);
    TrimEndsKept(raw, name, a, b);
    TrimStartSkips(raw, 0);
    if b < |raw| {
      TrimEndSkips(raw, a, |raw|);
    }
    TrimDetachable(raw, name, a, b);
    SegmentKept(raw, name, a, b);
    TrimIs(raw, a, b);
    TrimIs(Stripped(raw, name), Pos(raw, name, a), Pos(raw, name, b));
  }

  lemma LastByteKept(s: string, name: string, b: nat)
    requires IsProviderName(name) && 0 < b <= |s|
    requires b == |s| || IsTrimSpace(s[b])
    ensures !Deleted(s, name, b - 1) && Pos(s, name, b) == Pos(s, name, b - 1) + 1
  {
    forall q: nat | q <= b - 1 <= q + |name|
      ensures !PrefixAt(s, name, q)
    {
      if PrefixAt(s, name, q) {
        PrefixIsCode(s, name, q);
      }
    }
  }

  lemma TrimDetachable(s: string, name: string, a: nat, b: nat)
    requires IsProviderName(name) && a <= b <= |s|
    requires forall k :: 0 <= k < a ==> IsTrimSpace(s[k])
    requires b == |s| || IsTrimSpace(s[b])
    ensures Detachable(s, name, a, b)
  {
    InertRun(s, 0, 0, a);
    forall p: nat | p < a
      ensures !PrefixAt(s, name, p)
    {
      if PrefixAt(s, name, p) {
        PrefixIsCode(s, name, p);
      }
    }
  }

  lemma {:induction false} SpacesStay(s: string, name: string, b: nat, i: nat)
    requires IsProviderName(name) && b <= i <= |s|
    requires forall k :: b <= k < i ==> IsTrimSpace(s[k])
    ensures Pos(s, name, i) == Pos(s, name, b) + (i - b) <= |Stripped(s, name)|
    ensures forall k :: Pos(s, name, b) <= k < Pos(s, name, i) ==> IsTrimSpace(Stripped(s, name)[k])
    decreases i
  {
    KeptPrefix(s, name, i, |s|);
    if b < i {
      SpacesStay(s, name, b, i - 1);
      ByteAt(s, name, i - 1);
    }
  }

  lemma TrimEndKept(s: string, name: string, a: nat)
    requires IsProviderName(name) && a <= |s|
    requires var b := TrimEnd(s, a, |s|); a < b ==> !Deleted(s, name, b - 1)
    ensures Pos(s, name, a) <= Pos(s, name, |s|) == |Stripped(s, name)|
    ensures TrimEnd(Stripped(s, name), Pos(s, name, a), |Stripped(s, name)|) == Pos(s, name, TrimEnd(s, a, |s|))
  {
    var b := TrimEnd(s, a, |s|);
    KeptPrefix(s, name, a, b);
    TrimEndSkips(s, a, |s|);
    SpacesStay(s, name, b, |s|);
    if a < b {
      KeptByteAt(s, name, b - 1);
      KeptPrefix(s, name, a, b - 1);
    }
    TrimEndIs(Stripped(s, name), Pos(s, name, a), |Stripped(s, name)|, Pos(s, name, b));
  }

  // ----------------------------------------------------------------- parentheses

  lemma CodeFromKept(s: string, name: string, a: nat, i: nat)
    requires IsProviderName(name) && a <= i < |s| && ModeFrom(s, 0, a) == Code && !Deleted(s, name, i)
    ensures Pos(s, name, a) <= Pos(s, name, i)
    ensures IsCode(Stripped(s, name), Pos(s, name, a), Pos(s, name, i)) <==> IsCode(s, a, i)
  {
    var s', b := Stripped(s, name), Pos(s, name, a);
    KeptPrefix(s, name, a, i);
    ByteAt(s, name, i);
    ModeKept(s, name, a);
    ModeKept(s, name, i);
    ModeKept(s, name, i + 1);
    Restart(s, 0, a, i);
    Restart(s, 0, a, i + 1);
    Restart(s', 0, b, Pos(s, name, i));
    Restart(s', 0, b, Pos(s, name, i + 1));
  }

  lemma {:induction false} DepthKept(s: string, name: string, a: nat, i: nat)
    requires IsProviderName(name) && a <= i <= |s| && ModeFrom(s, 0, a) == Code
    ensures Pos(s, name, a) <= Pos(s, name, i) <= |Stripped(s, name)|
    ensures ParenDepth(Stripped(s, name), Pos(s, name, a), Pos(s, name, i)) == ParenDepth(s, a, i)
    decreases i
  {
    KeptPrefix(s, name, a, i);
    KeptPrefix(s, name, i, |s|);
    if a < i {
      DepthKept(s, name, a, i - 1);
      ByteAt(s, name, i - 1);
      if !Deleted(s, name, i - 1) {
        CodeFromKept(s, name, a, i - 1);
      }
    }
  }

  lemma ClosesKept(s: string, name: string, a: nat, i: nat)
    requires IsProviderName(name) && a <= i < |s| && ModeFrom(s, 0, a) == Code && !Deleted(s, name, i)
    ensures Pos(s, name, a) <= Pos(s, name, i) < |Stripped(s, name)|
    ensures ClosesAt(Stripped(s, name), Pos(s, name, a), Pos(s, name, i)) <==> ClosesAt(s, a, i)
    ensures ParenDepth(Stripped(s, name), Pos(s, name, a), Pos(s, name, i) + 1) == ParenDepth(s, a, i + 1)
  {
    CodeFromKept(s, name, a, i);
    DepthKept(s, name, a, i + 1);
    ByteAt(s, name, i);
  }

  lemma FirstCloseKept(s: string, name: string, a: nat, c: nat)
    requires IsProviderName(name) && a <= c < |s| && ModeFrom(s, 0, a) == Code && !Deleted(s, name, c)
    ensures FirstClose(Stripped(s, name), Pos(s, name, a), Pos(s, name, c)) <==> FirstClose(s, a, c)
  {
    var s', b, d := Stripped(s, name), Pos(s, name, a), Pos(s, name, c);
    ClosesKept(s, name, a, c);
    if FirstClose(s, a, c) {
      forall j | b <= j < d
        ensures !ClosesAt(s', b, j)
      {
        var i := Origin(s, name, c, j);
        if i < a {
          KeptPrefix(s, name, i + 1, a);
          ByteAt(s, name, i);
        }
        ClosesKept(s, name, a, i);
      }
    }
    if FirstClose(s', b, d) {
      forall i | a <= i < c
        ensures !ClosesAt(s, a, i)
      {
        ByteAt(s, name, i);
        if !Deleted(s, name, i) {
          ClosesKept(s, name, a, i);
          KeptPrefix(s, name, i + 1, c);
          assert !ClosesAt(s', b, Pos(s, name, i));
        }
      }
    }
  }

  lemma CloseKept(s: string, name: string, a: nat)
    requires IsProviderName(name) && a <= |s| && ModeFrom(s, 0, a) == Code
    ensures Pos(s, name, a) <= |Stripped(s, name)|
    ensures var r := CloseFrom(s, a, a);
            CloseFrom(Stripped(s, name), Pos(s, name, a), Pos(s, name, a))
            == if r.Some? then Some(Pos(s, name, r.value)) else None
  {
    var s', b, r := Stripped(s, name), Pos(s, name, a), CloseFrom(s, a, a);
    var r' := if r.Some? then Some(Pos(s, name, r.value)) else None;
    KeptPrefix(s, name, a, |s|);
    if r.Some? {
      ByteAt(s, name, r.value);
      FirstCloseKept(s, name, a, r.value);
      ClosesKept(s, name, a, r.value);
    } else {
      forall c: nat | FirstClose(s', b, c)
        ensures ParenDepth(s', b, c + 1) < 0
      {
        var i := Origin(s, name, |s|, c);
        if i < a {
          KeptPrefix(s, name, i + 1, a);
          ByteAt(s, name, i);
        }
        FirstCloseKept(s, name, a, i);
        ClosesKept(s, name, a, i);
      }
    }
    CloseIsFirst(s', b, r');
  }

  // -------------------------------------------------------------------- theorem

  ghost function StripReference(r: Reference, name: string): Reference {
    match r
    case Missing => Missing
    case Subquery(inner) => Subquery(Stripped(inner, name))
    case Table(table) => Table(Stripped(table, name))
  }

  /** A stretch of kept bytes that are inert, starting in code, leaves the scan clear and in code. */
  lemma {:induction false} ClearRun(s: string, name: string, i: nat, j: nat)
    requires IsProviderName(name) && i <= j <= |s| && Clear(s, name, i)
    requires forall k :: i <= k < j ==> !Deleted(s, name, k)
    ensures Clear(s, name, j)
    decreases j
  {
    if i < j {
      ClearRun(s, name, i, j - 1);
      if PrefixAt(s, name, j - 1) {
        assert Deleted(s, name, j - 1);
      }
    }
  }

  lemma KeptIsClear(s: string, name: string, i: nat)
    requires i < |s| && !Deleted(s, name, i)
    ensures Clear(s, name, i)
  {
    forall p: nat | p < i <= p + |name|
      ensures !PrefixAt(s, name, p)
    {
    }
  }

  lemma SpacesKept(s: string, name: string, i: nat, j: nat)
    requires IsProviderName(name) && i <= j <= |s|
    requires forall k :: i <= k < j ==> IsAsciiSpace(s[k])
    ensures forall k :: i <= k < j ==> !Deleted(s, name, k)
  {
    forall k | i <= k < j
      ensures !Deleted(s, name, k)
    {
      if Deleted(s, name, k) {
        DeletedByteAt(s, name, k);
      }
    }
  }

  /** After the keyword, `start` is where the table or parenthesis stands: in code, inside no prefix. */
  lemma StartInCode(s: string, name: string, kw: nat)
    requires IsProviderName(name) && KeywordAt(s, FROM, kw) && !Deleted(s, name, kw)
    ensures var start := TableStart(s, kw);
            && ModeFrom(s, 0, start) == Code
            && Clear(s, name, start)
            && (start == |s| || !IsIdent(s[start]) || (!IsIdent(s[start - 1]) && s[start - 1] != '.'))
  {
    FromBytes(s, kw);
    AfterKeyword(s, kw, TableStart(s, kw));
    StartIsClear(s, name, kw);
  }

  lemma KeywordLands(s: string, name: string, kw: nat)
    requires IsProviderName(name) && KeywordAt(s, FROM, kw) && !Deleted(s, name, kw)
    ensures Pos(s, name, kw + 4) == Pos(s, name, kw) + 4
  {
    FromBytes(s, kw);
    WordForth(s, name, kw, 4);
  }

  lemma AfterKeyword(s: string, kw: nat, start: nat)
    requires KeywordAt(s, FROM, kw) && start == TableStart(s, kw)
    requires forall k :: kw <= k < kw + 4 ==> IsIdent(s[k])
    ensures ModeFrom(s, 0, start) == Code
    ensures start == |s| || !IsIdent(s[start]) || (!IsIdent(s[start - 1]) && s[start - 1] != '.')
  {
    SkipSpacesSkips(s, kw + 4);
    InertRun(s, 0, kw, start);
  }

  lemma StartIsClear(s: string, name: string, kw: nat)
    requires IsProviderName(name) && KeywordAt(s, FROM, kw) && !Deleted(s, name, kw)
    requires forall k :: kw <= k < kw + 4 ==> IsIdent(s[k])
    ensures Clear(s, name, TableStart(s, kw))
  {
    var start := TableStart(s, kw);
    WordForth(s, name, kw, 4);
    SkipSpacesSkips(s, kw + 4);
    SpacesKept(s, name, kw + 4, start);
    KeptIsClear(s, name, kw);
    ClearRun(s, name, kw, start);
  }

  lemma ReferenceKept(s: string, name: string, start: nat)
    requires IsProviderName(name) && start <= |s|
    requires ModeFrom(s, 0, start) == Code && Clear(s, name, start)
    requires start == 0 || start == |s| || !IsIdent(s[start]) || (!IsIdent(s[start - 1]) && s[start - 1] != '.')
    ensures Pos(s, name, start) <= |Stripped(s, name)|
    ensures ReferenceAt(Stripped(s, name), Pos(s, name, start)) == StripReference(ReferenceAt(s, start), name)
  {
    KeptPrefix(s, name, start, |s|);
    PlainByte(s, name, start, '(');
    if At(s, start, '(') {
      SubqueryKept(s, name, start);
    } else {
      TableKept(s, name, start);
    }
  }

  lemma TableKept(s: string, name: string, start: nat)
    requires IsProviderName(name) && start <= |s|
    requires ModeFrom(s, 0, start) == Code && Clear(s, name, start)
    requires start == 0 || start == |s| || !IsIdent(s[start]) || (!IsIdent(s[start - 1]) && s[start - 1] != '.')
    ensures var s', start' := Stripped(s, name), Pos(s, name, start);
            && start' <= |s'|
            && Trim(s'[start'..TableEnd(s', start')]) == Stripped(Trim(s[start..TableEnd(s, start)]), name)
    ensures var table := Trim(s[start..TableEnd(s, start)]); Stripped(table, name) == "" <==> table == ""
  {
    var end := TableEnd(s, start);
    TableEndKept(s, name, start);
    SegmentKept(s, name, start, end);
    TrimKept(s[start..end], name);
  }

  lemma SubqueryKept(s: string, name: string, start: nat)
    requires IsProviderName(name) && At(s, start, '(')
    requires ModeFrom(s, 0, start) == Code && Clear(s, name, start)
    ensures At(Stripped(s, name), Pos(s, name, start), '(')
    ensures ReferenceAt(Stripped(s, name), Pos(s, name, start)) == StripReference(ReferenceAt(s, start), name)
  {
    PlainByte(s, name, start, '(');
    ByteAt(s, name, start);
    CloseKept(s, name, start);
    var close := CloseFrom(s, start, start);
    if close.Some? && start < close.value {
      SubqueryDetachable(s, name, start, close.value);
      SegmentKept(s, name, start + 1, close.value);
      KeptPrefix(s, name, start + 1, close.value);
    }
  }

  lemma SubqueryDetachable(s: string, name: string, open: nat, close: nat)
    requires IsProviderName(name) && open < close < |s| && s[open] == '(' && s[close] == ')'
    requires ModeFrom(s, 0, open) == Code && Clear(s, name, open)
    ensures Detachable(s, name, open + 1, close)
  {
    assert ModeFrom(s, 0, open + 1) == Code;
    if PrefixAt(s, name, open) {
      PrefixIsCode(s, name, open);
    }
  }

  /** One step of the search for the first table commutes with stripping, if the first keyword is kept. */
  lemma FirstReferenceKept(s: string, name: string)
    requires IsProviderName(name)
    requires KeywordFrom(s, FROM, 0).Some? ==> !Deleted(s, name, KeywordFrom(s, FROM, 0).value)
    ensures FirstReference(Stripped(s, name)) == StripReference(FirstReference(s), name)
  {
    FirstKeywordKept(s, name);
    var r := KeywordFrom(s, FROM, 0);
    if r.Some? {
      StartKept(s, name, r.value);
      ReferenceKept(s, name, TableStart(s, r.value));
    }
  }

  lemma StartKept(s: string, name: string, kw: nat)
    requires IsProviderName(name) && KeywordAt(s, FROM, kw) && !Deleted(s, name, kw)
    ensures var start := TableStart(s, kw);
            && ModeFrom(s, 0, start) == Code
            && Clear(s, name, start)
            && (start == |s| || !IsIdent(s[start]) || (!IsIdent(s[start - 1]) && s[start - 1] != '.'))
            && Pos(s, name, kw) + 4 <= |Stripped(s, name)|
            && TableStart(Stripped(s, name), Pos(s, name, kw)) == Pos(s, name, start)
  {
    StartInCode(s, name, kw);
    KeywordLands(s, name, kw);
    SkipSpacesKept(s, name, kw + 4);
  }

  /**
   Looking for the first table commutes with stripping, through any depth of nested subqueries,
   for every name but the keyword itself.
   */
  lemma {:induction false} RoutingCommutes(s: string, name: string)
    requires IsProviderName(name) && !EqIgnoreCase(name, FROM)
    ensures Commutes(s, name)
    decreases |s|
  {
    var r := KeywordFrom(s, FROM, 0);
    if r.Some? && Deleted(s, name, r.value) {
      DeletedKeyword(s, name, r.value);
    }
    FirstReferenceKept(s, name);
    if FirstReference(s).Subquery? {
      RoutingCommutes(FirstReference(s).inner, name);
    }
  }

  /** Where the first keyword is removed with a prefix, the first table begins with the prefix's dot. */
  lemma DotAfterKeyword(s: string, name: string)
    requires IsProviderName(name) && KeywordFrom(s, FROM, 0).Some? && Deleted(s, name, KeywordFrom(s, FROM, 0).value)
    ensures FirstReference(s).Table? && FirstReference(s).name[0] == '.'
  {
    var kw := KeywordFrom(s, FROM, 0).value;
    DeletedKeyword(s, name, kw);
    var start := kw + 4;
    assert s[start] == '.' && TableStart(s, kw) == start;
    var raw := s[start..TableEnd(s, start)];
    assert TableEnd(s, start) == TableEnd(s, start + 1);
    assert raw[0] == '.';
    TrimKeepsFirst(raw);
  }

  lemma TrimKeepsFirst(raw: string)
    requires raw != "" && !IsTrimSpace(raw[0])
    ensures Trim(raw) != "" && Trim(raw)[0] == raw[0]
  {
    TrimEndSkips(raw, 0, |raw|);
  }

  /**
   Routing strips only the name that the first table itself begins with. For that name the first table
   of the stripped statement is always the stripped first table, even when it is the keyword.
   */
  lemma {:induction false} RoutedNameCommutes(s: string, name: string)
    requires IsProviderName(name) && FirstTable(s).Some? && FirstSegment(FirstTable(s).value) == name
    ensures FirstTable(Stripped(s, name)) == Some(Stripped(FirstTable(s).value, name))
    decreases |s|
  {
    var r := KeywordFrom(s, FROM, 0);
    if r.Some? && Deleted(s, name, r.value) {
      DotAfterKeyword(s, name);
      assert false;
    }
    FirstReferenceKept(s, name);
    if FirstReference(s).Subquery? {
      RoutedNameCommutes(FirstReference(s).inner, name);
    }
  }

  ghost predicate Commutes(s: string, name: string) {
    FirstTable(Stripped(s, name)) == if FirstTable(s).Some? then Some(Stripped(FirstTable(s).value, name)) else None
  }

  /**
   The two functions called with unrelated arguments: removing the prefix of a name that is the keyword,
   in any letter case, may remove the word that introduces the table.
   */
  lemma KeywordNameBreaksCommuting(name: string)
    requires IsProviderName(name) && EqIgnoreCase(name, FROM)
    ensures !Commutes(name + ".a", name)
  {
    var s := name + ".a";
    FromIsWord(name);
    assert s[0..4] == name && s[..4] == name;
    assert |s| == 6 && s[4] == '.' && s[5] == 'a';
    InertRun(s, 0, 0, 6);
    assert KeywordAt(s, FROM, 0);
    assert SkipSpaces(s, 4) == 4 && TableEnd(s, 6) == 6 && TableEnd(s, 5) == 6;
    assert s[4..6] == ".a";
    assert TrimStart(".a", 0) == 0 && TrimEnd(".a", 0, 2) == 2;
    assert KeywordFrom(s, FROM, 0) == Some(0) && TableStart(s, 0) == 4 && TableEnd(s, 4) == 6;
    assert Trim(".a") == ".a"[0..2] == ".a";
    assert FirstReference(s) == ReferenceAt(s, 4) == Table(".a");
    assert PrefixAt(s, name, 0);
    KeptNone(s, name, 0, 5) by {
      forall k | 0 <= k < 5
        ensures Deleted(s, name, k)
      {
      }
    }
    assert |Stripped(s, name)| <= 1;
    assert KeywordFrom(Stripped(s, name), FROM, 0).None?;
  }

  /** The two functions commute on every statement exactly when the name is not the keyword. */
  lemma CommutesIff(name: string)
    requires IsProviderName(name)
    ensures (forall s :: Commutes(s, name)) <==> !EqIgnoreCase(name, FROM)
  {
    if EqIgnoreCase(name, FROM) {
      KeywordNameBreaksCommuting(name);
    } else {
      forall s
        ensures Commutes(s, name)
      {
        RoutingCommutes(s, name);
      }
    }
  }

  // -------------------------------------------------------------- compute_route

  /** The text before the first dot. */
  function FirstSegment(table: string): (r: string)
    ensures r <= table && '.' !in r
    ensures |r| < |table| ==> table[|r|] == '.'
  {
    if table == "" || table[0] == '.' then ""
    else [table[0]] + FirstSegment(table[1..])
  }

  /**
   Routing against the registered provider names. A routed statement names the provider in
   the first segment of its first table; the text sent on has that table with the prefix stripped.
   */
  method ComputeRoute(sql: string, registry: set<string>) returns (r: Option<(string, string)>)
    ensures r.None? <==>
              FirstTable(sql).None?
              || FirstSegment(FirstTable(sql).value) == ""
              || FirstSegment(FirstTable(sql).value) !in registry
    ensures r.Some? ==> r.value.0 in registry && r.value.0 == FirstSegment(FirstTable(sql).value)
    ensures r.Some? && IsProviderName(r.value.0) ==> r.value.1 == Stripped(sql, r.value.0)
    ensures r.Some? && IsProviderName(r.value.0) ==>
              FirstTable(r.value.1) == Some(Stripped(FirstTable(sql).value, r.value.0))
  {
    var table := FirstTableName(sql);
    if table.None? {
      return None;
    }
    var name := FirstSegment(table.value);
    if name == "" || name !in registry {
      return None;
    }
    var text := StripProviderPrefix(sql, name);
    if IsProviderName(name) {
      RoutedNameCommutes(sql, name);
    }
    return Some((name, text));
  }
}
