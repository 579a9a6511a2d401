/** The result-cache keys. */
module ResultKeys {
  // The two result-cache key builders (src/runtime.rs): what each feeds to the hasher, and that
  // equal streams bind equal values. The 64-bit hash itself is taken to be injective, so a key
  // carries the stream.

  import opened Common

  type i64 = i: int | -0x8000_0000_0000_0000 <= i < 0x8000_0000_0000_0000
  type u64 = u: int | 0 <= u < 0x1_0000_0000_0000_0000

  datatype QueryValue = QNull | QBool(b: bool) | QInt(i: i64) | QFloat(bits: u64) | QText(text: string)

  datatype QueryParam = QueryParam(name: string, value: QueryValue)

  datatype TextKind =
    | Chars | Symbol | Time | Hex | IpNet | IpAddr | Obj | Array
    | Domain | Url | Email | IdCard | MobilePhone | BigUint

  /** A field's value; the kinds that are hashed and bound by their text are one constructor. */
  datatype FieldValue =
    | FNull
    | FIgnore
    | FBool(b: bool)
    | FInt(i: i64)
    | FFloat(bits: u64)
    | FText(kind: TextKind, text: string)

  datatype DataField = DataField(name: string, value: FieldValue)

  /** What reaches a PostgreSQL or MySQL provider. Big integers are bound as numbers, other textual kinds as text. */
  datatype Bound =
    BNull | BBool(b: bool) | BInt(i: i64) | BFloat(bits: u64) | BText(text: string) | BDecimal(digits: string)

  function BoundValue(v: FieldValue): Bound {
    match v
    case FNull => BNull
    case FIgnore => BNull
    case FBool(b) => BBool(b)
    case FInt(i) => BInt(i)
    case FFloat(bits) => BFloat(bits)
    case FText(kind, text) => if kind.BigUint? then BDecimal(text) else BText(text)
  }

  /** What it means for two fields to ask the database for the same value. */
  predicate SameBinding(v: FieldValue, w: FieldValue) {
    match (v, w)
    case (FBool(a), FBool(b)) => a == b
    case (FInt(i), FInt(j)) => i == j
    case (FFloat(x), FFloat(y)) => x == y
    case (FText(k, s), FText(l, t)) => s == t && (k.BigUint? <==> l.BigUint?)
    case _ => (v.FNull? || v.FIgnore?) && (w.FNull? || w.FIgnore?)
  }

  /** Two fields are bound alike exactly when they ask for the same value. */
  lemma BoundAlike(v: FieldValue, w: FieldValue)
    ensures BoundValue(v) == BoundValue(w) <==> SameBinding(v, w)
  {
  }

  /** The named values a list of fields binds. */
  function Bindings(fields: seq<DataField>): (r: seq<(string, Bound)>)
    ensures |r| == |fields|
  {
    seq(|fields|, k requires 0 <= k < |fields| => (fields[k].name, BoundValue(fields[k].value)))
  }

  function ParamToField(p: QueryParam): DataField {
    DataField(p.name, match p.value
                      case QNull => FNull
                      case QBool(b) => FBool(b)
                      case QInt(i) => FInt(i)
                      case QFloat(bits) => FFloat(bits)
                      case QText(text) => FText(Chars, text))
  }

  function FieldToParam(f: DataField): QueryParam {
    QueryParam(f.name, match f.value
                       case FNull => QNull
                       case FIgnore => QNull
                       case FBool(b) => QBool(b)
                       case FInt(i) => QInt(i)
                       case FFloat(bits) => QFloat(bits)
                       case FText(_, text) => QText(text))
  }

  function ParamsToFields(params: seq<QueryParam>): (r: seq<DataField>)
    ensures |r| == |params|
  {
    seq(|params|, k requires 0 <= k < |params| => ParamToField(params[k]))
  }

  function FieldsToParams(fields: seq<DataField>): (r: seq<QueryParam>)
    ensures |r| == |fields|
  {
    seq(|fields|, k requires 0 <= k < |fields| => FieldToParam(fields[k]))
  }

  /** Parameters survive the trip through fields unchanged. */
  lemma ParamsRoundTrip(params: seq<QueryParam>)
    ensures FieldsToParams(ParamsToFields(params)) == params
  {
    forall k | 0 <= k < |params|
      ensures FieldToParam(ParamToField(params[k])) == params[k]
    {
    }
  }

  /**
   With PostgreSQL and MySQL, fields sent as parameters bind what they would have bound themselves,
   unless one is a big integer.
   */
  lemma FieldsRoundTripIff(fields: seq<DataField>)
    ensures Bindings(ParamsToFields(FieldsToParams(fields))) == Bindings(fields) <==>
            forall k :: 0 <= k < |fields| ==> !(fields[k].value.FText? && fields[k].value.kind.BigUint?)
  {
    var there := Bindings(ParamsToFields(FieldsToParams(fields)));
    forall k | 0 <= k < |fields|
      ensures there[k] == Bindings(fields)[k] <==> !(fields[k].value.FText? && fields[k].value.kind.BigUint?)
    {
    }
  }

  /** What reaches a SQLite provider: there big integers are bound as text and truth values as 0 and 1. */
  function SqliteBindings(fields: seq<DataField>): (r: seq<(string, Bound)>)
    ensures |r| == |fields|
  {
    seq(|fields|, k requires 0 <= k < |fields| => (fields[k].name, SqliteBound(BoundValue(fields[k].value))))
  }

  function SqliteBound(b: Bound): Bound {
    match b
    case BDecimal(digits) => BText(digits)
    case BBool(true) => BInt(1)
    case BBool(false) => BInt(0)
    case _ => b
  }

  /** What SQLite cannot tell from the second value, though the first is another. */
  predicate TakenFor(b: Bound, c: Bound) {
    match b
    case BBool(on) => c == BInt(if on then 1 else 0)
    case BDecimal(digits) => c == BText(digits)
    case _ => false
  }

  /** SQLite tells apart what the others do, but for truth values and 0 and 1, and big integers and their texts. */
  lemma SqliteAlike(b: Bound, c: Bound)
    ensures SqliteBound(b) == SqliteBound(c) <==> b == c || TakenFor(b, c) || TakenFor(c, b)
  {
  }

  /** With SQLite the trip makes no difference to any field. */
  lemma FieldsRoundTripSqlite(fields: seq<DataField>)
    ensures SqliteBindings(ParamsToFields(FieldsToParams(fields))) == SqliteBindings(fields)
  {
    forall k | 0 <= k < |fields|
      ensures SqliteBindings(ParamsToFields(FieldsToParams(fields)))[k] == SqliteBindings(fields)[k]
    {
    }
  }

  /** A big integer sent as a parameter is bound as text by PostgreSQL and MySQL. */
  lemma BigIntegerBecomesText()
    ensures var fields := [DataField("id", FText(BigUint, "18446744073709551616"))];
            && Bindings(fields) == [("id", BDecimal("18446744073709551616"))]
            && Bindings(ParamsToFields(FieldsToParams(fields))) == [("id", BText("18446744073709551616"))]
  {
  }

  // ------------------------------------------------------------------- hash streams

  /**
   One byte written to the hasher, of a string's text or any other, or what a time or an address writes by its
   own `Hash`, taken as one unit that tells such values apart. Text never contains the byte 255.
   */
  datatype Atom = Text(c: char) | Byte(b: nat) | Own(value: string)

  /** A string is written as its bytes and an end mark. */
  function StrBytes(s: string): seq<Atom> {
    if s == "" then [Byte(255)] else [Text(s[0])] + StrBytes(s[1..])
  }

  function LittleEndian(w: nat, n: nat): (r: seq<Atom>)
    ensures |r| == n
  {
    if n == 0 then [] else [Byte(w % 256)] + LittleEndian(w / 256, n - 1)
  }

  function Word(i: int): nat
    requires -0x8000_0000_0000_0000 <= i < 0x1_0000_0000_0000_0000
  {
    if i < 0 then i + 0x1_0000_0000_0000_0000 else i
  }

  /** The tag each textual kind is hashed under. */
  function KindTag(k: TextKind): nat {
    match k
    case Chars => 4
    case Symbol => 5
    case Time => 6
    case Hex => 7
    case IpNet => 8
    case IpAddr => 9
    case Obj => 10
    case Array => 11
    case Domain => 12
    case Url => 13
    case Email => 14
    case IdCard => 15
    case MobilePhone => 16
    case BigUint => 17
  }

  /** Kinds are told apart by their tags. */
  lemma KindsTagged(k: TextKind, l: TextKind)
    ensures KindTag(k) == KindTag(l) <==> k == l
  {
  }

  function ParamBytes(v: QueryValue): seq<Atom> {
    match v
    case QNull => [Byte(0)]
    case QBool(b) => [Byte(1), Byte(if b then 1 else 0)]
    case QInt(i) => [Byte(2)] + LittleEndian(Word(i), 8)
    case QFloat(bits) => [Byte(3)] + LittleEndian(Word(bits), 8)
    case QText(text) => [Byte(4)] + StrBytes(text)
  }

  /** Times and addresses are hashed as they are, everything else as a string. */
  function TextBytes(kind: TextKind, text: string): seq<Atom> {
    if kind.Time? || kind.IpAddr? then [Own(text)] else StrBytes(text)
  }

  function FieldBytes(v: FieldValue): seq<Atom> {
    match v
    case FNull => [Byte(0)]
    case FIgnore => [Byte(0)]
    case FBool(b) => [Byte(1), Byte(if b then 1 else 0)]
    case FInt(i) => [Byte(2)] + LittleEndian(Word(i), 8)
    case FFloat(bits) => [Byte(3)] + LittleEndian(Word(bits), 8)
    case FText(kind, text) => [Byte(KindTag(kind))] + TextBytes(kind, text)
  }

  /** `stable_params_hash`, up to the hash. */
  function ParamsStream(params: seq<QueryParam>): seq<Atom> {
    if params == [] then [] else StrBytes(params[0].name) + ParamBytes(params[0].value) + ParamsStream(params[1..])
  }

  /** `stable_field_params_hash`, up to the hash. */
  function FieldsStream(fields: seq<DataField>): seq<Atom> {
    if fields == [] then [] else StrBytes(fields[0].name) + FieldBytes(fields[0].value) + FieldsStream(fields[1..])
  }

  /** The streams of the two builders agree on parameters turned into fields. */
  lemma {:induction false} SameStream(params: seq<QueryParam>)
    ensures ParamsStream(params) == FieldsStream(ParamsToFields(params))
    decreases |params|
  {
    if params != [] {
      SameStream(params[1..]);
      assert ParamsToFields(params)[1..] == ParamsToFields(params[1..]);
    }
  }

  // ------------------------------------------------------------ unique decodability

  /** A string and what follows it can be told apart. */
  lemma {:induction false} StrSplits(a: string, b: string, x: seq<Atom>, y: seq<Atom>)
    requires StrBytes(a) + x == StrBytes(b) + y
    ensures a == b && x == y
    decreases |a|
  {
    var l, r := StrBytes(a) + x, StrBytes(b) + y;
    assert l[0] == StrBytes(a)[0] && r[0] == StrBytes(b)[0];
    assert l[1..] == StrBytes(a)[1..] + x && r[1..] == StrBytes(b)[1..] + y;
    if a == "" {
      assert b == "";
      assert StrBytes(a)[1..] + x == x && StrBytes(b)[1..] + y == y;
    } else {
      assert StrBytes(a)[1..] == StrBytes(a[1..]) && StrBytes(b)[1..] == StrBytes(b[1..]);
      StrSplits(a[1..], b[1..], x, y);
      assert a == [a[0]] + a[1..] && b == [b[0]] + b[1..];
    }
  }

  function Pow256(n: nat): nat {
    if n == 0 then 1 else 256 * Pow256(n - 1)
  }

  lemma {:induction false} LittleEndianInjective(v: nat, w: nat, n: nat)
    requires v < Pow256(n) && w < Pow256(n) && LittleEndian(v, n) == LittleEndian(w, n)
    ensures v == w
    decreases n
  {
    if 0 < n {
      var a, b := LittleEndian(v, n), LittleEndian(w, n);
      assert a[0] == b[0] && a[1..] == LittleEndian(v / 256, n - 1) && b[1..] == LittleEndian(w / 256, n - 1);
      LittleEndianInjective(v / 256, w / 256, n - 1);
    }
  }

  lemma Pow256Of8()
    ensures Pow256(8) == 0x1_0000_0000_0000_0000
  {
    assert Pow256(4) == 256 * 256 * 256 * 256 by {
      assert Pow256(1) == 256 && Pow256(2) == 256 * Pow256(1) && Pow256(3) == 256 * Pow256(2);
    }
    assert Pow256(5) == 256 * Pow256(4) && Pow256(6) == 256 * Pow256(5) && Pow256(7) == 256 * Pow256(6);
  }

  lemma WordSplits(i: int, j: int, x: seq<Atom>, y: seq<Atom>)
    requires -0x8000_0000_0000_0000 <= i < 0x1_0000_0000_0000_0000
    requires -0x8000_0000_0000_0000 <= j < 0x1_0000_0000_0000_0000
    requires LittleEndian(Word(i), 8) + x == LittleEndian(Word(j), 8) + y
    ensures Word(i) == Word(j) && x == y
  {
    var a, b := LittleEndian(Word(i), 8), LittleEndian(Word(j), 8);
    assert a == (a + x)[..8] && b == (b + y)[..8];
    assert x == (a + x)[8..] && y == (b + y)[8..];
    Pow256Of8();
    LittleEndianInjective(Word(i), Word(j), 8);
  }

  /** A field value's bytes are self-delimiting, and equal bytes bind equal values. */
  lemma TextFieldSplits(v: FieldValue, w: FieldValue, x: seq<Atom>, y: seq<Atom>)
    requires v.FText? && FieldBytes(v) + x == FieldBytes(w) + y
    ensures BoundValue(v) == BoundValue(w) && x == y
  {
    var a, b := FieldBytes(v), FieldBytes(w);
    Peel(a, b, x, y);
    assert a[1..] == TextBytes(v.kind, v.text) && b[1..] == TextBytes(w.kind, w.text);
    TextSplits(v.kind, v.text, w.text, x, y);
  }

  lemma WordFieldSplits(v: FieldValue, w: FieldValue, x: seq<Atom>, y: seq<Atom>)
    requires (v.FInt? || v.FFloat?) && FieldBytes(v) + x == FieldBytes(w) + y
    ensures BoundValue(v) == BoundValue(w) && x == y
  {
    var a, b := FieldBytes(v), FieldBytes(w);
    Peel(a, b, x, y);
    if v.FInt? {
      assert a[1..] == LittleEndian(Word(v.i), 8) && b[1..] == LittleEndian(Word(w.i), 8);
      WordSplits(v.i, w.i, x, y);
    } else {
      assert a[1..] == LittleEndian(Word(v.bits), 8) && b[1..] == LittleEndian(Word(w.bits), 8);
      WordSplits(v.bits, w.bits, x, y);
    }
  }

  lemma ValueSplits(v: FieldValue, w: FieldValue, x: seq<Atom>, y: seq<Atom>)
    requires FieldBytes(v) + x == FieldBytes(w) + y
    ensures BoundValue(v) == BoundValue(w) && x == y
  {
    if v.FText? {
      TextFieldSplits(v, w, x, y);
    } else if v.FInt? || v.FFloat? {
      WordFieldSplits(v, w, x, y);
    } else {
      var a, b := FieldBytes(v), FieldBytes(w);
      Peel(a, b, x, y);
      if v.FBool? {
        Peel(a[1..], b[1..], x, y);
        assert a[1..][1..] + x == x && b[1..][1..] + y == y;
      } else {
        assert a[1..] + x == x && b[1..] + y == y;
      }
    }
  }

  lemma TextSplits(kind: TextKind, a: string, b: string, x: seq<Atom>, y: seq<Atom>)
    requires TextBytes(kind, a) + x == TextBytes(kind, b) + y
    ensures a == b && x == y
  {
    if kind.Time? || kind.IpAddr? {
      Peel([Own(a)], [Own(b)], x, y);
      assert [Own(a)][1..] + x == x && [Own(b)][1..] + y == y;
    } else {
      StrSplits(a, b, x, y);
    }
  }

  lemma Peel(a: seq<Atom>, b: seq<Atom>, x: seq<Atom>, y: seq<Atom>)
    requires a != [] && b != [] && a + x == b + y
    ensures a[0] == b[0] && a[1..] + x == b[1..] + y
  {
    assert (a + x)[0] == a[0] && (b + y)[0] == b[0];
    assert (a + x)[1..] == a[1..] + x && (b + y)[1..] == b[1..] + y;
  }

  lemma StreamCons(fields: seq<DataField>)
    requires fields != []
    ensures FieldsStream(fields) == StrBytes(fields[0].name) + (FieldBytes(fields[0].value) + FieldsStream(fields[1..]))
    ensures FieldsStream(fields) != []
  {
    assert StrBytes(fields[0].name) != [];
  }

  /** Field lists with the same hash stream bind the same named values. */
  lemma {:induction false} EqualStreamsBindEqual(f: seq<DataField>, g: seq<DataField>)
    requires FieldsStream(f) == FieldsStream(g)
    ensures Bindings(f) == Bindings(g)
    decreases |f|
  {
    if f != [] {
      StreamCons(f);
    }
    if g != [] {
      StreamCons(g);
    }
    if f != [] && g != [] {
      StrSplits(f[0].name, g[0].name, FieldBytes(f[0].value) + FieldsStream(f[1..]),
                FieldBytes(g[0].value) + FieldsStream(g[1..]));
      ValueSplits(f[0].value, g[0].value, FieldsStream(f[1..]), FieldsStream(g[1..]));
      EqualStreamsBindEqual(f[1..], g[1..]);
      BindingsCons(f);
      BindingsCons(g);
    }
  }

  lemma BindingsCons(f: seq<DataField>)
    requires f != []
    ensures Bindings(f) == [(f[0].name, BoundValue(f[0].value))] + Bindings(f[1..])
  {
  }

  /** Equal keys bind equal values, whichever of the two builders made them. */
  lemma EqualKeysBindEqual(params: seq<QueryParam>, others: seq<QueryParam>, fields: seq<DataField>)
    ensures ParamsStream(params) == FieldsStream(fields) ==> Bindings(ParamsToFields(params)) == Bindings(fields)
    ensures ParamsStream(params) == ParamsStream(others) ==>
              Bindings(ParamsToFields(params)) == Bindings(ParamsToFields(others))
  {
    SameStream(params);
    SameStream(others);
    if ParamsStream(params) == FieldsStream(fields) {
      EqualStreamsBindEqual(ParamsToFields(params), fields);
    }
    if ParamsStream(params) == ParamsStream(others) {
      EqualStreamsBindEqual(ParamsToFields(params), ParamsToFields(others));
    }
  }
}
