/** Registry access masks (`Access`). */
module RegistryAccess {
  import opened Bits

  // Access rights (REG_SAM_FLAGS values of the Windows SDK).
  const KeyQueryValue: bv32 := 0x0001
  const KeySetValue: bv32 := 0x0002
  const KeyCreateSubKey: bv32 := 0x0004
  const KeyEnumerateSubKeys: bv32 := 0x0008
  const KeyWow64_64Key: bv32 := 0x0100
  const KeyWow64_32Key: bv32 := 0x0200
  const KeyRead: bv32 := 0x2_0019
  const KeyWrite: bv32 := 0x2_0006
  const KeyAllAccess: bv32 := 0xF_003F

  /** `Access`: a registry access mask. */
  type Access = bv32

  /** `Access::with`: every right of either mask is granted. */
  function With(a: Access, b: Access): (r: Access)
    ensures r & a == a && r & b == b
  {
    OrKeeps(a, b);
    a | b
  }

  /** ... and no right outside both masks. */
  lemma WithAddsNothing(a: Access, b: Access, m: Access)
    requires m & a == 0 && m & b == 0
    ensures With(a, b) & m == 0
  {
    OrAddsNothing(a, b, m);
  }

  const Read: Access := KeyRead
  const Write: Access := KeyWrite
  const All: Access := KeyAllAccess
  const QueryValue: Access := KeyQueryValue
  const SetValue: Access := KeySetValue
  const CreateSubKey: Access := KeyCreateSubKey
  const EnumerateSubKeys: Access := KeyEnumerateSubKeys
  const Wow64_32: Access := KeyWow64_32Key
  const Wow64_64: Access := KeyWow64_64Key

  lemma AccessCombinations()
    ensures With(Read, Write) & KeyRead != 0 && With(Read, Write) & KeyWrite != 0
    ensures With(Read, Wow64_32) & KeyWow64_32Key != 0
  {
  }
}

/**
 * The registry value codec: the conversion between a `Value` and the
 * (type tag, byte buffer) pair the registry stores.
 */
module Registry {
  import opened Ints
  import opened Errors
  import opened Utf16
  import opened WideCodec

  // Value type tags (REG_VALUE_TYPE values of the Windows SDK).
  const RegSz: U32 := 1
  const RegExpandSz: U32 := 2
  const RegBinary: U32 := 3
  const RegDword: U32 := 4
  const RegMultiSz: U32 := 7
  const RegQword: U32 := 11

  /** A registry value; the constructors are `Value::string`, `dword`, `qword`
      and `binary`. */
  datatype Value =
    | String(s: string)
    | ExpandString(s: string)
    | MultiString(strings: seq<string>)
    | Dword(dword: U32)
    | Qword(qword: U64)
    | Binary(data: seq<U8>)
  {
    /** `as_string`: both string kinds answer. */
    function AsString(): (r: Option<string>)
      ensures r.Some? <==> String? || ExpandString?
      ensures r.Some? ==> r.value == s
    {
      match this
      case String(s) => Some(s)
      case ExpandString(s) => Some(s)
      case _ => None
    }

    /** `as_dword`. */
    function AsDword(): (r: Option<U32>)
      ensures r.Some? <==> Dword?
      ensures r.Some? ==> r.value == dword
    {
      if Dword? then Some(dword) else None
    }

    /** `as_qword`. */
    function AsQword(): (r: Option<U64>)
      ensures r.Some? <==> Qword?
      ensures r.Some? ==> r.value == qword
    {
      if Qword? then Some(qword) else None
    }

    /** `as_binary`. */
    function AsBinary(): (r: Option<seq<U8>>)
      ensures r.Some? <==> Binary?
      ensures r.Some? ==> r.value == data
    {
      if Binary? then Some(data) else None
    }

    /** The type tag `set_value` stores with this value. */
    function Tag(): U32
    {
      match this
      case String(_) => RegSz
      case ExpandString(_) => RegExpandSz
      case MultiString(_) => RegMultiSz
      case Dword(_) => RegDword
      case Qword(_) => RegQword
      case Binary(_) => RegBinary
    }
  }

  lemma ValueConstructors()
    ensures String("test").AsString() == Some("test")
    ensures Dword(42).AsDword() == Some(42) && Dword(42).AsString() == None
    ensures Qword(1234567890).AsQword() == Some(1234567890)
    ensures Binary([1, 2, 3]).AsBinary() == Some([1, 2, 3])
  {
  }

  // ------------------------------------------------------------------
  // Little-endian integers

  function Pow256(n: nat): (p: nat)
    ensures p >= 1
  {
    if n == 0 then 1 else 256 * Pow256(n - 1)
  }

  /** `uN::from_le_bytes`. */
  function LeToNat(b: seq<U8>): (x: nat)
    ensures x < Pow256(|b|)
  {
    if b == [] then 0 else b[0] + 256 * LeToNat(b[1..])
  }

  /** `uN::to_le_bytes`, for an `n`-byte integer. */
  function NatToLe(x: nat, n: nat): (b: seq<U8>)
    ensures |b| == n
  {
    if n == 0 then [] else [x % 256] + NatToLe(x / 256, n - 1)
  }

  lemma {:induction false} LeOfNat(x: nat, n: nat)
    requires x < Pow256(n)
    ensures LeToNat(NatToLe(x, n)) == x
  {
    if n > 0 {
      LeOfNat(x / 256, n - 1);
      assert NatToLe(x, n)[1..] == NatToLe(x / 256, n - 1);
    }
  }

  lemma {:induction false} NatOfLe(b: seq<U8>)
    ensures NatToLe(LeToNat(b), |b|) == b
  {
    if b != [] {
      NatOfLe(b[1..]);
      var x := LeToNat(b);
      assert x % 256 == b[0] && x / 256 == LeToNat(b[1..]);
    }
  }

  lemma Pow256Widths()
    ensures Pow256(4) == 0x1_0000_0000 && Pow256(8) == 0x1_0000_0000_0000_0000
  {
  }

  // ------------------------------------------------------------------
  // UTF-16LE buffers

  /** `chunks_exact(2)` read as little-endian units; an odd last byte is skipped. */
  function BytesToUnits(b: seq<U8>): (w: seq<U16>)
    ensures |w| == |b| / 2
  {
    if |b| < 2 then [] else [b[0] as int + 256 * b[1] as int] + BytesToUnits(b[2..])
  }

  /** `flat_map(|w| w.to_le_bytes())`. */
  function UnitsToBytes(w: seq<U16>): (b: seq<U8>)
    ensures |b| == 2 * |w|
  {
    if w == [] then [] else [w[0] % 256, w[0] / 256] + UnitsToBytes(w[1..])
  }

  lemma {:induction false} UnitsOfBytes(w: seq<U16>)
    ensures BytesToUnits(UnitsToBytes(w)) == w
  {
    if w != [] {
      UnitsOfBytes(w[1..]);
      assert UnitsToBytes(w)[2..] == UnitsToBytes(w[1..]);
    }
  }

  /** A trailing odd byte does not take part in the conversion. */
  lemma {:induction false} OddByteIgnored(b: seq<U8>, x: U8)
    requires |b| % 2 == 0
    ensures BytesToUnits(b + [x]) == BytesToUnits(b)
  {
    if |b| >= 2 {
      assert (b + [x])[2..] == b[2..] + [x];
      OddByteIgnored(b[2..], x);
    }
  }

  // ------------------------------------------------------------------
  // REG_MULTI_SZ

  /** The zero-terminated, non-empty segments of `w`; an unterminated tail is dropped. */
  function SplitMulti(w: seq<U16>): (segs: seq<seq<U16>>)
    decreases |w|
  {
    var k := FirstZero(w);
    if k == |w| then []
    else
      assert 0 !in w[..k] by {
        assert forall j | 0 <= j < k :: w[..k][j] == w[j];
      }
      (if k > 0 then [w[..k]] else []) + SplitMulti(w[k + 1..])
  }

  /** `from_wide(..)?` over each segment in order; the first failure wins. */
  function DecodeAll(segs: seq<seq<U16>>): (r: Result<seq<string>>)
    ensures r.Ok? ==> |r.value| == |segs|
    ensures r.Err? ==> r.error == StringConversion
  {
    if segs == [] then Ok([])
    else
      var h := FromWide(segs[0]);
      if h.Err? then Err(h.error)
      else
        var t := DecodeAll(segs[1..]);
        if t.Err? then t else Ok([h.value] + t.value)
  }

  /** The list decoded so far in front of the result for the rest. */
  function Prefixed(done: seq<string>, rest: Result<seq<string>>): Result<seq<string>>
  {
    if rest.Ok? then Ok(done + rest.value) else rest
  }

  /** Cutting the next zero-terminated piece off the remaining buffer. */
  lemma SplitMultiAt(w: seq<U16>, k: nat)
    requires k < |w| && w[k] == 0 && 0 !in w[..k]
    ensures SplitMulti(w) == (if k > 0 then [w[..k]] else []) + SplitMulti(w[k + 1..])
  {
    assert forall j | 0 <= j < k :: w[j] == w[..k][j];
    FirstZeroOf(w, k);
  }

  lemma PrefixedAssoc(a: seq<string>, b: seq<string>, r: Result<seq<string>>)
    ensures Prefixed(a, Prefixed(b, r)) == Prefixed(a + b, r)
  {
    if r.Ok? {
      assert a + (b + r.value) == (a + b) + r.value;
    }
  }

  /** A zero at `i` closes the segment that began at `start`. */
  lemma SplitMultiStep(wide: seq<U16>, start: nat, i: nat)
    requires start <= i < |wide| && wide[i] == 0
    requires forall j | start <= j < i :: wide[j] != 0
    ensures SplitMulti(wide[start..])
      == (if i > start then [wide[start..i]] else []) + SplitMulti(wide[i + 1..])
  {
    var rest := wide[start..];
    var k := i - start;
    assert rest[..k] == wide[start..i];
    assert 0 !in rest[..k] by {
      assert forall j | 0 <= j < k :: rest[..k][j] == wide[start + j];
    }
    SplitMultiAt(rest, k);
    assert rest[k + 1..] == wide[i + 1..];
  }

  /** The segments the MULTI_SZ loop of `get_value` cuts, scanning at `i` with
      the current segment begun at `start`. */
  function Segments(wide: seq<U16>, start: nat, i: nat): seq<seq<U16>>
    requires start <= i <= |wide|
    decreases |wide| - i
  {
    if i == |wide| then []
    else if wide[i] != 0 then Segments(wide, start, i + 1)
    else (if i > start then [wide[start..i]] else []) + Segments(wide, i + 1, i + 1)
  }

  /** No zero remains: the unterminated tail yields no segment. */
  lemma ScanEnd(wide: seq<U16>, start: nat)
    requires start <= |wide|
    requires forall j | start <= j < |wide| :: wide[j] != 0
    ensures SplitMulti(wide[start..]) == []
  {
    assert forall j | 0 <= j < |wide| - start :: wide[start..][j] == wide[start + j];
    FirstZeroOf(wide[start..], |wide| - start);
  }

  /** The loop cuts the same segments as `SplitMulti` does on the rest of the buffer. */
  lemma {:induction false} SegmentsAreSplit(wide: seq<U16>, start: nat, i: nat)
    requires start <= i <= |wide|
    requires forall j | start <= j < i :: wide[j] != 0
    ensures Segments(wide, start, i) == SplitMulti(wide[start..])
    decreases |wide| - i
  {
    if i == |wide| {
      ScanEnd(wide, start);
    } else if wide[i] != 0 {
      SegmentsAreSplit(wide, start, i + 1);
    } else {
      SegmentsAreSplit(wide, i + 1, i + 1);
      SplitMultiStep(wide, start, i);
    }
  }

  /** A segment in front of the rest: decoded first, its failure wins. */
  lemma ScanClose(seg: seq<U16>, acc: seq<string>, segs: seq<seq<U16>>)
    ensures FromWide(seg).Ok? ==>
      Prefixed(acc + [FromWide(seg).value], DecodeAll(segs)) == Prefixed(acc, DecodeAll([seg] + segs))
    ensures FromWide(seg).Err? ==> Prefixed(acc, DecodeAll([seg] + segs)) == Err(FromWide(seg).error)
  {
    DecodeAllCons(seg, segs);
    if FromWide(seg).Ok? {
      PrefixedAssoc(acc, [FromWide(seg).value], DecodeAll(segs));
    }
  }

  /** The MULTI_SZ branch of `get_value`: a scan with a running segment start. */
  method DecodeMultiSz(wide: seq<U16>) returns (r: Result<seq<string>>)
    ensures r == DecodeAll(SplitMulti(wide))
  {
    var strings: seq<string> := [];
    var start := 0;
    var i := 0;
    ghost var all := DecodeAll(Segments(wide, 0, 0));
    PrefixedNone(all);
    while i < |wide|
      invariant 0 <= start <= i <= |wide|
      invariant Prefixed(strings, DecodeAll(Segments(wide, start, i))) == all
    {
      if wide[i] == 0 {
        if i > start {
          assert Segments(wide, start, i) == [wide[start..i]] + Segments(wide, i + 1, i + 1);
          var s := FromWide(wide[start..i]);
          ScanClose(wide[start..i], strings, Segments(wide, i + 1, i + 1));
          if s.Err? {
            r := Err(s.error);
            SegmentsOfAll(wide);
            return;
          }
          strings := strings + [s.value];
        } else {
          assert [] + Segments(wide, i + 1, i + 1) == Segments(wide, i + 1, i + 1);
        }
        start := i + 1;
      }
      i := i + 1;
    }
    assert strings + [] == strings;
    r := Ok(strings);
    SegmentsOfAll(wide);
  }

  /** Scanning from the start cuts the segments of `SplitMulti`. */
  lemma SegmentsOfAll(wide: seq<U16>)
    ensures Segments(wide, 0, 0) == SplitMulti(wide)
  {
    SegmentsAreSplit(wide, 0, 0);
    assert wide[0..] == wide;
  }

  lemma PrefixedNone(r: Result<seq<string>>)
    ensures Prefixed([], r) == r
  {
    if r.Ok? {
      assert [] + r.value == r.value;
    }
  }

  /** The strings, each followed by a zero, as `set_value` lays them out. */
  function MultiSzBody(strings: seq<string>): seq<U16>
  {
    if strings == [] then [] else Encode(strings[0]) + [0] + MultiSzBody(strings[1..])
  }

  /** The full MULTI_SZ units: the body and one more zero. */
  function MultiSzUnits(strings: seq<string>): (w: seq<U16>)
    ensures |w| >= 1 && w[|w| - 1] == 0
  {
    MultiSzBody(strings) + [0]
  }

  lemma {:induction false} MultiSzBodySnoc(strings: seq<string>, x: string)
    ensures MultiSzBody(strings + [x]) == MultiSzBody(strings) + Encode(x) + [0]
  {
    if strings != [] {
      assert (strings + [x])[1..] == strings[1..] + [x];
      MultiSzBodySnoc(strings[1..], x);
    }
  }

  /** The MULTI_SZ branch of `set_value`. */
  method EncodeMultiSz(strings: seq<string>) returns (wide: seq<U16>)
    ensures wide == MultiSzUnits(strings)
  {
    wide := [];
    var i := 0;
    while i < |strings|
      invariant 0 <= i <= |strings|
      invariant wide == MultiSzBody(strings[..i])
    {
      MultiSzBodySnoc(strings[..i], strings[i]);
      assert strings[..i + 1] == strings[..i] + [strings[i]];
      wide := wide + Encode(strings[i]) + [0];
      i := i + 1;
    }
    assert strings[..i] == strings;
    wide := wide + [0];
  }

  /** The strings of a list that are not empty, in order. */
  function NonEmpty(strings: seq<string>): (r: seq<string>)
    ensures |r| <= |strings|
  {
    if strings == [] then []
    else (if strings[0] == [] then [] else [strings[0]]) + NonEmpty(strings[1..])
  }

  predicate NulFree(strings: seq<string>)
  {
    forall i | 0 <= i < |strings| :: '\0' !in strings[i]
  }

  /** A NUL-free text decodes from its bare encoding. */
  lemma FromWideEncode(s: string)
    requires '\0' !in s
    ensures FromWide(Encode(s)) == Ok(s)
  {
    FromWideAppendZero(Encode(s));
    FromWideToWideNulFree(s);
  }

  /** One string and its terminator in front of more MULTI_SZ data. */
  lemma SplitMultiCons(x: string, tail: seq<U16>)
    requires '\0' !in x
    ensures SplitMulti(Encode(x) + [0] + tail)
      == (if x == [] then [] else [Encode(x)]) + SplitMulti(tail)
  {
    var e := Encode(x);
    var w := e + [0] + tail;
    EncodeZeroIff(x);
    assert w[..|e|] == e;
    assert w[|e| + 1..] == tail;
    SplitMultiAt(w, |e|);
    if x != [] {
      assert e != [] by { assert |EncodeScalar(x[0])| >= 1; }
    }
  }

  lemma DecodeAllCons(seg: seq<U16>, segs: seq<seq<U16>>)
    ensures DecodeAll([seg] + segs)
      == if FromWide(seg).Err? then Err(FromWide(seg).error)
         else Prefixed([FromWide(seg).value], DecodeAll(segs))
  {
    assert ([seg] + segs)[1..] == segs;
  }

  /** Decoding the MULTI_SZ layout of NUL-free strings gives them back, except
      that empty strings vanish. */
  lemma {:induction false} MultiSzRoundTrip(strings: seq<string>)
    requires NulFree(strings)
    ensures DecodeAll(SplitMulti(MultiSzUnits(strings))) == Ok(NonEmpty(strings))
  {
    if strings == [] {
      assert MultiSzUnits(strings) == [0];
      SplitMultiAt([0], 0);
      assert SplitMulti([0]) == [];
    } else {
      var x := strings[0];
      var rest := strings[1..];
      var tail := MultiSzUnits(rest);
      assert MultiSzUnits(strings) == Encode(x) + [0] + tail;
      assert NulFree(rest) by {
        assert forall i | 0 <= i < |rest| :: rest[i] == strings[i + 1];
      }
      MultiSzRoundTrip(rest);
      SplitMultiCons(x, tail);
      var segsTail := SplitMulti(tail);
      if x == [] {
        assert SplitMulti(MultiSzUnits(strings)) == segsTail;
        assert NonEmpty(strings) == NonEmpty(rest);
      } else {
        assert SplitMulti(MultiSzUnits(strings)) == [Encode(x)] + segsTail;
        FromWideEncode(x);
        DecodeAllCons(Encode(x), segsTail);
        assert NonEmpty(strings) == [x] + NonEmpty(rest);
      }
    }
  }

  /** Anything after the last zero is ignored by the MULTI_SZ decoder. */
  lemma {:induction false} UnterminatedTailDropped(p: seq<U16>, t: seq<U16>)
    requires p == [] || p[|p| - 1] == 0
    requires 0 !in t
    ensures SplitMulti(p + t) == SplitMulti(p)
    decreases |p|
  {
    if p == [] {
      assert p + t == t;
      FirstZeroOf(t, |t|);
    } else {
      var k := FirstZero(p);
      assert k < |p|;
      assert forall j | 0 <= j <= k :: (p + t)[j] == p[j];
      FirstZeroOf(p + t, k);
      assert (p + t)[..k] == p[..k];
      assert (p + t)[k + 1..] == p[k + 1..] + t;
      UnterminatedTailDropped(p[k + 1..], t);
    }
  }

  // ------------------------------------------------------------------
  // The value codec

  /** The message of the unsupported-type error: the tag in `{:?}` form. */
  function UnsupportedType(valueType: U32): string
  {
    "Unsupported registry type: REG_VALUE_TYPE(" + Decimal(valueType) + ")"
  }

  /** The decoding branch of `get_value`, from the stored type and bytes. */
  function ValueFromBytes(valueType: U32, buffer: seq<U8>): (r: Result<Value>)
    ensures r.Ok? ==> r.value.Tag() == valueType
    ensures valueType == RegDword ==> (r.Ok? <==> |buffer| >= 4)
    ensures valueType == RegQword ==> (r.Ok? <==> |buffer| >= 8)
    ensures valueType == RegBinary ==> r == Ok(Binary(buffer))
    ensures valueType !in {RegSz, RegExpandSz, RegMultiSz, RegDword, RegQword, RegBinary}
      ==> r == Err(Custom(UnsupportedType(valueType)))
  {
    if valueType == RegSz || valueType == RegExpandSz then
      var s := FromWide(BytesToUnits(buffer));
      if s.Err? then Err(s.error)
      else if valueType == RegSz then Ok(String(s.value))
      else Ok(ExpandString(s.value))
    else if valueType == RegMultiSz then
      var strings := DecodeAll(SplitMulti(BytesToUnits(buffer)));
      if strings.Err? then Err(strings.error) else Ok(MultiString(strings.value))
    else if valueType == RegDword then
      if |buffer| >= 4 then
        Pow256Widths();
        Ok(Dword(LeToNat(buffer[..4])))
      else Err(Custom("Invalid DWORD size"))
    else if valueType == RegQword then
      if |buffer| >= 8 then
        Pow256Widths();
        Ok(Qword(LeToNat(buffer[..8])))
      else Err(Custom("Invalid QWORD size"))
    else if valueType == RegBinary then
      Ok(Binary(buffer))
    else
      Err(Custom(UnsupportedType(valueType)))
  }

  /** The encoding branch of `set_value`: the type tag and the bytes. */
  function ValueToBytes(v: Value): (r: (U32, seq<U8>))
    ensures r.0 == v.Tag()
    ensures v.Dword? ==> |r.1| == 4
    ensures v.Qword? ==> |r.1| == 8
  {
    match v
    case String(s) => (RegSz, UnitsToBytes(ToWide(s)))
    case ExpandString(s) => (RegExpandSz, UnitsToBytes(ToWide(s)))
    case MultiString(strings) => (RegMultiSz, UnitsToBytes(MultiSzUnits(strings)))
    case Dword(d) => (RegDword, NatToLe(d, 4))
    case Qword(q) => (RegQword, NatToLe(q, 8))
    case Binary(data) => (RegBinary, data)
  }

  /** `get_value` after the query: the MULTI_SZ loop and the other branches. */
  method DecodeValue(valueType: U32, buffer: seq<U8>) returns (r: Result<Value>)
    ensures r == ValueFromBytes(valueType, buffer)
  {
    if valueType == RegMultiSz {
      var wide := BytesToUnits(buffer);
      var strings := DecodeMultiSz(wide);
      if strings.Err? {
        return Err(strings.error);
      }
      r := Ok(MultiString(strings.value));
    } else {
      r := ValueFromBytes(valueType, buffer);
    }
  }

  /** `set_value` before the write: the MULTI_SZ loop and the other branches. */
  method EncodeValue(v: Value) returns (valueType: U32, data: seq<U8>)
    ensures (valueType, data) == ValueToBytes(v)
  {
    if v.MultiString? {
      var wide := EncodeMultiSz(v.strings);
      valueType, data := RegMultiSz, UnitsToBytes(wide);
    } else {
      valueType, data := ValueToBytes(v).0, ValueToBytes(v).1;
    }
  }

  /** Values whose strings hold no U+0000 and whose lists hold no empty string. */
  predicate Storable(v: Value)
  {
    match v
    case String(s) => '\0' !in s
    case ExpandString(s) => '\0' !in s
    case MultiString(strings) => NulFree(strings) && forall i | 0 <= i < |strings| :: strings[i] != []
    case _ => true
  }

  lemma {:induction false} NonEmptyOfNonEmpty(strings: seq<string>)
    requires forall i | 0 <= i < |strings| :: strings[i] != []
    ensures NonEmpty(strings) == strings
  {
    if strings != [] {
      NonEmptyOfNonEmpty(strings[1..]);
    }
  }

  /** Writing a value and reading it back gives the same value. */
  lemma ValueRoundTrip(v: Value)
    requires Storable(v)
    ensures ValueFromBytes(ValueToBytes(v).0, ValueToBytes(v).1) == Ok(v)
  {
    match v
    case String(s) =>
      UnitsOfBytes(ToWide(s));
      FromWideToWideNulFree(s);
    case ExpandString(s) =>
      UnitsOfBytes(ToWide(s));
      FromWideToWideNulFree(s);
    case MultiString(strings) =>
      UnitsOfBytes(MultiSzUnits(strings));
      MultiSzRoundTrip(strings);
      NonEmptyOfNonEmpty(strings);
    case Dword(d) =>
      Pow256Widths();
      LeOfNat(d, 4);
      assert NatToLe(d, 4)[..4] == NatToLe(d, 4);
    case Qword(q) =>
      Pow256Widths();
      LeOfNat(q, 8);
      assert NatToLe(q, 8)[..8] == NatToLe(q, 8);
    case Binary(_) =>
  }

  /** The DWORD and QWORD decoders read only the leading bytes. */
  lemma IntegerPrefixOnly(d: U32, q: U64, extra: seq<U8>)
    ensures ValueFromBytes(RegDword, NatToLe(d, 4) + extra) == Ok(Dword(d))
    ensures ValueFromBytes(RegQword, NatToLe(q, 8) + extra) == Ok(Qword(q))
  {
    Pow256Widths();
    LeOfNat(d, 4);
    LeOfNat(q, 8);
    assert (NatToLe(d, 4) + extra)[..4] == NatToLe(d, 4);
    assert (NatToLe(q, 8) + extra)[..8] == NatToLe(q, 8);
  }

  /** A string buffer with an odd byte count decodes as if the byte were absent. */
  lemma StringOddByte(valueType: U32, buffer: seq<U8>, x: U8)
    requires valueType == RegSz || valueType == RegExpandSz || valueType == RegMultiSz
    requires |buffer| % 2 == 0
    ensures ValueFromBytes(valueType, buffer + [x]) == ValueFromBytes(valueType, buffer)
  {
    OddByteIgnored(buffer, x);
  }

  /** Empty strings in a stored list vanish on the way back. */
  lemma MultiSzDropsEmpty(strings: seq<string>)
    requires NulFree(strings)
    ensures ValueFromBytes(RegMultiSz, ValueToBytes(MultiString(strings)).1)
      == Ok(MultiString(NonEmpty(strings)))
  {
    UnitsOfBytes(MultiSzUnits(strings));
    MultiSzRoundTrip(strings);
  }

  /** `[a, "", b]` reads back as `[a, b]`; the empty list reads back empty. */
  lemma MultiSzExamples(a: string, b: string)
    requires a != [] && b != [] && '\0' !in a && '\0' !in b
    ensures ValueFromBytes(RegMultiSz, ValueToBytes(MultiString([a, "", b])).1)
      == Ok(MultiString([a, b]))
    ensures ValueFromBytes(RegMultiSz, ValueToBytes(MultiString([])).1) == Ok(MultiString([]))
  {
    var xs := [a, "", b];
    assert NulFree(xs) by {
      assert forall i | 0 <= i < 3 :: xs[i] == a || xs[i] == "" || xs[i] == b;
    }
    MultiSzDropsEmpty(xs);
    assert xs[1..] == ["", b];
    assert xs[1..][1..] == [b];
    assert NonEmpty([b]) == [b] by { assert [b][1..] == []; }
    assert NonEmpty(xs) == [a, b];
    MultiSzDropsEmpty([]);
  }
}
