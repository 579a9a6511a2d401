/** Searching and splitting text, as Rust's `str` methods do. */
module TextSearch {
  import opened Common

  /** The index of the first `c` at or after `i`, or the length. */
  function Find(s: string, c: char, i: nat): (r: nat)
    requires i <= |s|
    ensures i <= r <= |s|
    ensures r < |s| ==> s[r] == c
    decreases |s| - i
  {
    if i < |s| && s[i] != c then Find(s, c, i + 1) else i
  }

  lemma {:induction false} FindSkips(s: string, c: char, i: nat)
    requires i <= |s|
    ensures forall k :: i <= k < Find(s, c, i) ==> s[k] != c
    decreases |s| - i
  {
    if i < |s| && s[i] != c {
      FindSkips(s, c, i + 1);
    }
  }

  lemma {:induction false} FindIs(s: string, c: char, i: nat, r: nat)
    requires i <= r <= |s|
    requires forall k :: i <= k < r ==> s[k] != c
    requires r < |s| ==> s[r] == c
    ensures Find(s, c, i) == r
    decreases r - i
  {
    if i < r {
      FindIs(s, c, i + 1, r);
    }
  }

  /** One past the last `c` before `i`, or zero. */
  function FindLast(s: string, c: char, i: nat): (r: nat)
    requires i <= |s|
    ensures r <= i
    ensures 0 < r ==> s[r - 1] == c
  {
    if 0 < i && s[i - 1] != c then FindLast(s, c, i - 1) else i
  }

  lemma {:induction false} FindLastSkips(s: string, c: char, i: nat)
    requires i <= |s|
    ensures forall k :: FindLast(s, c, i) <= k < i ==> s[k] != c
  {
    if 0 < i && s[i - 1] != c {
      FindLastSkips(s, c, i - 1);
    }
  }

  lemma {:induction false} FindLastIs(s: string, c: char, i: nat, r: nat)
    requires 0 < r <= i <= |s|
    requires s[r - 1] == c
    requires forall k :: r <= k < i ==> s[k] != c
    ensures FindLast(s, c, i) == r
    decreases i
  {
    if r < i {
      FindLastIs(s, c, i - 1, r);
    }
  }

  /** The parts of `s[i..]` between the separators `c`; there is always at least one. */
  function SplitFrom(s: string, c: char, i: nat): (parts: seq<string>)
    requires i <= |s|
    ensures parts != []
    decreases |s| - i
  {
    var e := Find(s, c, i);
    if e == |s| then [s[i..]] else [s[i..e]] + SplitFrom(s, c, e + 1)
  }

  function Join(parts: seq<string>, c: char): string {
    if parts == [] then "" else if |parts| == 1 then parts[0] else parts[0] + [c] + Join(parts[1..], c)
  }

  /** The parts hold no separator, and with separators between them they are the text. */
  lemma {:induction false} SplitIs(s: string, c: char, i: nat)
    requires i <= |s|
    ensures Join(SplitFrom(s, c, i), c) == s[i..]
    ensures forall k :: 0 <= k < |SplitFrom(s, c, i)| ==> c !in SplitFrom(s, c, i)[k]
    decreases |s| - i
  {
    var e := Find(s, c, i);
    FindSkips(s, c, i);
    if e < |s| {
      SplitIs(s, c, e + 1);
      var rest := SplitFrom(s, c, e + 1);
      assert SplitFrom(s, c, i)[1..] == rest;
      assert s[i..e] + [c] + s[e + 1..] == s[i..];
    }
  }

  /** The lines of the text from `i` on, without their line ends; a final line end opens no further line. */
  function LinesFrom(s: string, i: nat): seq<string>
    requires i <= |s|
    decreases |s| - i
  {
    if i == |s| then []
    else
      var e := Find(s, '\n', i);
      if e == |s| then [s[i..]]
      else if i < e && s[e - 1] == '\r' then [s[i..e - 1]] + LinesFrom(s, e + 1)
      else [s[i..e]] + LinesFrom(s, e + 1)
  }
}
