/** The IPv4 functions given to SQL, on 32-bit words. */
module Cidr {
  // The IPv4 functions given to SQL (src/sqlite_ext.rs): a network `address/prefix` as a mask, as a
  // range, and as a membership test. First the words, with `ipOk` and `netOk` saying whether the address
  // and the network were readable; then the texts, over a reader of dotted addresses that is given.

  import opened Common
  import opened Numerals
  import opened TextSearch

  const ALL_ONES: bv32 := 0xFFFF_FFFF

  /** The mask of a prefix of at most 32 bits. */
  function Mask(prefix: bv8): bv32
    requires prefix <= 32
  {
    if prefix == 0 then 0 else ALL_ONES << (32 - prefix)
  }

  /** The bits outside the mask form a block at the low end. */
  predicate Contiguous(m: bv32) {
    !m & (!m + 1) == 0
  }

  lemma MaskIsContiguous(prefix: bv8)
    requires prefix <= 32
    ensures Contiguous(Mask(prefix))
  {
  }

  /** Exactly the top bits of the prefix are set. */
  lemma MaskBits(prefix: bv8, i: bv8)
    requires prefix <= 32 && i < 32
    ensures (Mask(prefix) >> (31 - i)) & 1 == 1 <==> i < prefix
  {
  }

  function Cidr4Min(netOk: bool, net: bv32, m: bv32): bv32 {
    if netOk then net & m else 0
  }

  function Cidr4Max(netOk: bool, net: bv32, m: bv32): bv32 {
    if netOk then (net & m) | !m else 0
  }

  /** An address that does not parse counts as the largest one. */
  predicate Ip4Between(ipOk: bool, ip: bv32, start: bv32, end: bv32) {
    var v := if ipOk then ip else ALL_ONES;
    v >= start && v <= end
  }

  predicate Cidr4Contains(ipOk: bool, ip: bv32, netOk: bool, net: bv32, m: bv32) {
    ipOk && netOk && ip & m == net & m
  }

  lemma XorZero(a: bv32, b: bv32, m: bv32)
    requires (a & m) ^ (b & m) == 0
    ensures a & m == b & m
  {
  }

  lemma EqualIsXor(a: bv32, b: bv32, m: bv32)
    ensures a & m == b & m <==> (a & m) ^ (b & m) == 0
  {
    if (a & m) ^ (b & m) == 0 {
      XorZero(a, b, m);
    }
  }

  /** Under a mask that leaves a block, the words that agree with `net` are those from its lower to its upper end. */
  lemma XorIsBetween(ip: bv32, net: bv32, m: bv32)
    requires Contiguous(m)
    ensures (ip & m) ^ (net & m) == 0 <==> net & m <= ip && ip <= (net & m) | !m
  {
  }

  lemma EqualIsBetween(ip: bv32, net: bv32, m: bv32)
    requires Contiguous(m)
    ensures ip & m == net & m <==> net & m <= ip && ip <= (net & m) | !m
  {
    EqualIsXor(ip, net, m);
    XorIsBetween(ip, net, m);
  }

  /** A member lies in the range. */
  lemma MemberInRange(ip: bv32, net: bv32, m: bv32)
    requires Contiguous(m) && Cidr4Contains(true, ip, true, net, m)
    ensures Ip4Between(true, ip, Cidr4Min(true, net, m), Cidr4Max(true, net, m))
  {
    EqualIsBetween(ip, net, m);
  }

  /** And what lies in the range is a member. */
  lemma InRangeIsMember(ip: bv32, net: bv32, m: bv32)
    requires Contiguous(m) && Ip4Between(true, ip, Cidr4Min(true, net, m), Cidr4Max(true, net, m))
    ensures Cidr4Contains(true, ip, true, net, m)
  {
    EqualIsBetween(ip, net, m);
  }

  /**
   Membership and the range test agree exactly unless an address that does not parse meets a range that
   ends at the largest address, or a network that does not parse meets the address zero.
   */
  lemma ContainsIsBetweenIff(ipOk: bool, ip: bv32, netOk: bool, net: bv32, m: bv32)
    requires Contiguous(m)
    ensures (Cidr4Contains(ipOk, ip, netOk, net, m)
             <==> Ip4Between(ipOk, ip, Cidr4Min(netOk, net, m), Cidr4Max(netOk, net, m)))
            <==> !(!ipOk && netOk && Cidr4Max(netOk, net, m) == ALL_ONES) && !(ipOk && !netOk && ip == 0)
  {
    if netOk && ipOk {
      if Cidr4Contains(true, ip, true, net, m) {
        MemberInRange(ip, net, m);
      } else if Ip4Between(true, ip, Cidr4Min(true, net, m), Cidr4Max(true, net, m)) {
        InRangeIsMember(ip, net, m);
      }
    }
  }

  // ------------------------------------------------------------------------ texts

  /** A reader of dotted addresses. */
  type Reader = string -> Option<bv32>

  datatype Network = Network(address: bv32, mask: bv32)

  function TrimQuotes(s: string): string {
    if s != "" && s[0] == '\"' then TrimQuotes(s[1..])
    else if s != "" && s[|s| - 1] == '\"' then TrimQuotes(s[..|s| - 1])
    else s
  }

  function Bare(s: string): string {
    TrimQuotes(Trim(s))
  }

  /** A prefix length: digits, perhaps after a plus sign, that denote at most 32. */
  function ParsePrefix(s: string): (r: Option<bv8>)
    ensures r.Some? ==> r.value <= 32
  {
    var digits := if s != "" && s[0] == '+' then s[1..] else s;
    if digits == "" || !AllDigits(digits) then None
    else if ParseDecimal(digits) > 32 then None
    else Some(ParseDecimal(digits) as bv8)
  }

  function ParseIpv4(read: Reader, s: string): Option<bv32> {
    read(Bare(s))
  }

  function ParseCidr4(read: Reader, s: string): Option<Network> {
    var parts := SplitFrom(Bare(s), '/', 0);
    if |parts| != 2 then None
    else if read(parts[0]).None? || ParsePrefix(parts[1]).None? then None
    else Some(Network(read(parts[0]).value, Mask(ParsePrefix(parts[1]).value)))
  }

  function AddressOf(a: Option<bv32>): bv32 {
    if a.Some? then a.value else 0
  }

  function NetworkOf(n: Option<Network>): Network {
    if n.Some? then n.value else Network(0, 0)
  }

  predicate ContainsText(read: Reader, ip: string, cidr: string) {
    var a, n := ParseIpv4(read, ip), ParseCidr4(read, cidr);
    Cidr4Contains(a.Some?, AddressOf(a), n.Some?, NetworkOf(n).address, NetworkOf(n).mask)
  }

  function MinText(read: Reader, cidr: string): bv32 {
    var n := ParseCidr4(read, cidr);
    Cidr4Min(n.Some?, NetworkOf(n).address, NetworkOf(n).mask)
  }

  function MaxText(read: Reader, cidr: string): bv32 {
    var n := ParseCidr4(read, cidr);
    Cidr4Max(n.Some?, NetworkOf(n).address, NetworkOf(n).mask)
  }

  predicate BetweenText(read: Reader, ip: string, start: bv32, end: bv32) {
    var a := ParseIpv4(read, ip);
    Ip4Between(a.Some?, AddressOf(a), start, end)
  }

  lemma NetworkIsContiguous(n: Option<Network>, read: Reader, cidr: string)
    requires n == ParseCidr4(read, cidr)
    ensures Contiguous(NetworkOf(n).mask)
  {
    if n.Some? {
      MaskIsContiguous(ParsePrefix(SplitFrom(Bare(cidr), '/', 0)[1]).value);
    }
  }

  /** The same about the texts, whatever they are. */
  lemma TextsAgreeIff(read: Reader, ip: string, cidr: string)
    ensures (ContainsText(read, ip, cidr) <==> BetweenText(read, ip, MinText(read, cidr), MaxText(read, cidr)))
            <==> !(ParseIpv4(read, ip).None? && ParseCidr4(read, cidr).Some? && MaxText(read, cidr) == ALL_ONES)
                 && !(ParseIpv4(read, ip) == Some(0) && ParseCidr4(read, cidr).None?)
  {
    var a, n := ParseIpv4(read, ip), ParseCidr4(read, cidr);
    NetworkIsContiguous(n, read, cidr);
    ContainsIsBetweenIff(a.Some?, AddressOf(a), n.Some?, NetworkOf(n).address, NetworkOf(n).mask);
  }

  /** The quotes at both ends go, and no others. */
  lemma {:induction false} QuotesGo(s: string) returns (a: nat, b: nat)
    ensures a <= b <= |s| && TrimQuotes(s) == s[a..b]
    ensures (forall k :: 0 <= k < a ==> s[k] == '\"') && forall k :: b <= k < |s| ==> s[k] == '\"'
    ensures a < b ==> s[a] != '\"' && s[b - 1] != '\"'
    decreases |s|
  {
    if s != "" && s[0] == '\"' {
      var c, d := QuotesGo(s[1..]);
      a, b := c + 1, d + 1;
      assert s[1..][c..d] == s[a..b];
      assert forall k :: 1 <= k < |s| ==> s[k] == s[1..][k - 1];
    } else if s != "" && s[|s| - 1] == '\"' {
      a, b := QuotesGo(s[..|s| - 1]);
      assert s[..|s| - 1][a..b] == s[a..b];
      assert forall k :: 0 <= k < |s| - 1 ==> s[k] == s[..|s| - 1][k];
    } else {
      a, b := 0, |s|;
    }
  }

  /** A prefix is a numeral of at most 32, with or without a plus sign. */
  lemma Prefixes(n: nat)
    ensures ParsePrefix(Decimal(n)) == ParsePrefix("+" + Decimal(n)) == if n <= 32 then Some(n as bv8) else None
    ensures ParsePrefix("").None? && ParsePrefix("+").None?
  {
    DecimalRoundTrip(n);
    assert ("+" + Decimal(n))[1..] == Decimal(n) && Decimal(n)[0] != '+';
  }

  lemma OtherPrefixes(s: string, k: nat)
    requires k < |s| && !IsDigit(s[k]) && (k == 0 ==> s[0] != '+')
    ensures ParsePrefix(s).None?
  {
    if s[0] == '+' {
      assert s[1..][k - 1] == s[k];
    }
  }

  lemma BareIs(s: string)
    requires s != "" && IsDigit(s[0]) && IsDigit(s[|s| - 1])
    ensures Bare(s) == s
  {
    assert TrimStart(s, 0) == 0 && TrimEnd(s, 0, |s|) == |s| && s[0..|s|] == s;
  }

  lemma SplitInTwo(a: string, b: string)
    requires '/' !in a && '/' !in b
    ensures SplitFrom(a + "/" + b, '/', 0) == [a, b]
  {
    var s, n := a + "/" + b, |a|;
    assert forall k :: 0 <= k < n ==> s[k] == a[k];
    assert forall k :: n < k < |s| ==> s[k] == b[k - n - 1];
    FindIs(s, '/', 0, n);
    FindIs(s, '/', n + 1, |s|);
    assert s[0..n] == a && s[n + 1..] == b;
  }

  /** An address and a numeral with one slash between them are a network when both can be read. */
  lemma NetworkText(read: Reader, a: string, n: nat, s: string)
    requires a != "" && IsDigit(a[0]) && '/' !in a && s == a + "/" + Decimal(n)
    ensures ParseCidr4(read, s) ==
              if read(a).Some? && n <= 32 then Some(Network(read(a).value, Mask(n as bv8))) else None
  {
    assert s[0] == a[0] && s[|s| - 1] == Decimal(n)[|Decimal(n)| - 1];
    BareIs(s);
    SplitInTwo(a, Decimal(n));
    Prefixes(n);
  }

  /** Without a slash, or with two, there is no network. */
  lemma SlashCount(read: Reader, s: string)
    requires ParseCidr4(read, s).Some?
    ensures exists a, b :: '/' !in a && '/' !in b && Bare(s) == a + "/" + b
  {
    var parts := SplitFrom(Bare(s), '/', 0);
    SplitIs(Bare(s), '/', 0);
    assert parts == [parts[0], parts[1]] && Join(parts[1..], '/') == parts[1];
    assert Bare(s)[0..] == Bare(s) && Bare(s) == parts[0] + ['/'] + parts[1];
  }

  lemma NoBits()
    ensures ParsePrefix("0") == Some(0)
  {
    assert "0"[..0] == "" && ParseDecimal("0") == 0;
  }

  lemma WholeSpace(read: Reader, cidr: string)
    requires read("0.0.0.0") == Some(0) && cidr == "0.0.0.0" + "/" + "0"
    ensures ParseCidr4(read, cidr).Some? && NetworkOf(ParseCidr4(read, cidr)) == Network(0, 0)
  {
    BareIs(cidr);
    SplitInTwo("0.0.0.0", "0");
    NoBits();
  }

  /** The empty text as an address counts as lying in a range that ends at 255.255.255.255. */
  lemma UnreadableAddress(read: Reader, cidr: string)
    requires read("0.0.0.0") == Some(0) && read("") == None && cidr == "0.0.0.0" + "/" + "0"
    ensures !ContainsText(read, "", cidr) && BetweenText(read, "", MinText(read, cidr), MaxText(read, cidr))
  {
    WholeSpace(read, cidr);
    assert Bare("") == "";
    TextsAgreeIff(read, "", cidr);
  }

  /** Zero counts as lying in the empty text as a network. */
  lemma UnreadableNetwork(read: Reader)
    requires read("0.0.0.0") == Some(0)
    ensures !ContainsText(read, "0.0.0.0", "") && BetweenText(read, "0.0.0.0", MinText(read, ""), MaxText(read, ""))
  {
    BareIs("0.0.0.0");
    assert Bare("") == "" && SplitFrom("", '/', 0) == [""];
    TextsAgreeIff(read, "0.0.0.0", "");
  }
}
