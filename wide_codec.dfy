/**
 * The codec between text and null-terminated UTF-16 buffers:
 * `to_wide`, `from_wide`, `from_wide_ptr` and `from_wide_with_len`.
 */
module WideCodec {
  import opened Ints
  import opened Errors
  import opened Utf16

  /** Index of the first zero unit of `w`, or |w| when it holds none
      (`wide.iter().position(|&c| c == 0).unwrap_or(wide.len())`). */
  function FirstZero(w: seq<U16>): (k: nat)
    ensures k <= |w|
    ensures forall j | 0 <= j < k :: w[j] != 0
    ensures k < |w| ==> w[k] == 0
    ensures k == |w| <==> 0 !in w
  {
    if w == [] then 0
    else if w[0] == 0 then 0
    else
      var k' := FirstZero(w[1..]);
      assert 0 in w <==> 0 in w[1..] by { assert w == [w[0]] + w[1..]; }
      1 + k'
  }

  /** FirstZero is characterised by its postconditions. */
  lemma {:induction false} FirstZeroOf(v: seq<U16>, k: nat)
    requires k <= |v|
    requires forall j | 0 <= j < k :: v[j] != 0
    requires k < |v| ==> v[k] == 0
    ensures FirstZero(v) == k
  {
    if v != [] && v[0] != 0 {
      FirstZeroOf(v[1..], k - 1);
    }
  }

  /** The text before the first U+0000 (`s.split('\0').next()`). */
  function BeforeNul(s: string): (p: string)
    ensures p <= s && '\0' !in p
    ensures |p| < |s| ==> s[|p|] == '\0'
  {
    if s == [] then []
    else if s[0] == '\0' then []
    else [s[0]] + BeforeNul(s[1..])
  }

  /** `String::from_utf16(w).map_err(|_| Error::string_conversion(..))`. */
  function FromUtf16(w: seq<U16>): (r: Result<string>)
    ensures r.Ok? <==> WellFormed(w)
    ensures r.Ok? ==> Encode(r.value) == w
    ensures r.Err? ==> r.error == StringConversion
  {
    DecodeSucceedsIff(w);
    var d := Decode(w);
    if d.Some? then
      EncodeDecode(w);
      Ok(d.value)
    else Err(StringConversion)
  }

  /** `to_wide`: the UTF-16 encoding followed by one zero unit. */
  function ToWide(s: string): (r: seq<U16>)
    ensures |r| == Utf16Len(s) + 1 <= Utf8Len(s) + 1
    ensures r[|r| - 1] == 0 && r[..|r| - 1] == Encode(s)
  {
    EncodeLength(s);
    Utf16LenAtMostUtf8Len(s);
    Encode(s) + [0]
  }

  /** `from_wide`: decodes the units before the first zero, or the whole slice. */
  function FromWide(wide: seq<U16>): (r: Result<string>)
    ensures r.Ok? <==> WellFormed(wide[..FirstZero(wide)])
    ensures r.Ok? ==> Encode(r.value) == wide[..FirstZero(wide)] && '\0' !in r.value
    ensures r.Err? ==> r.error == StringConversion
  {
    var r := FromUtf16(wide[..FirstZero(wide)]);
    if r.Ok? then EncodeZeroIff(r.value); r else r
  }

  /** `from_wide_with_len`: decodes exactly min(len, |wide|) units, zeros included. */
  function FromWideWithLen(wide: seq<U16>, len: nat): (r: Result<string>)
    ensures var n := if len < |wide| then len else |wide|;
      && (r.Ok? <==> WellFormed(wide[..n]))
      && (r.Ok? ==> Encode(r.value) == wide[..n])
    ensures r.Err? ==> r.error == StringConversion
  {
    var actualLen := if len < |wide| then len else |wide|;
    FromUtf16(wide[..actualLen])
  }

  /**
   * `from_wide_ptr`.  The pointer is `None` for null, or `Some(m)` where `m` is the
   * memory from the pointer onwards; the caller's obligation that a terminator
   * exists becomes the precondition.  The loop counts units up to the terminator.
   */
  method FromWidePtr(ptr: Option<seq<U16>>) returns (r: Result<string>)
    requires ptr.Some? ==> 0 in ptr.value
    ensures ptr.None? ==> r == Err(NullPointer)
    ensures ptr.Some? ==> r == FromWide(ptr.value)
  {
    if ptr.None? {
      return Err(NullPointer);
    }
    var mem := ptr.value;
    var len := 0;
    while mem[len] != 0
      invariant 0 <= len <= FirstZero(mem) < |mem|
      decreases FirstZero(mem) - len
    {
      len := len + 1;
    }
    var slice := mem[..len];
    FirstZeroOf(slice, len);
    assert slice[..len] == mem[..FirstZero(mem)];
    r := FromWide(slice);
  }

  /** Decoding an encoded text gives back everything before its first U+0000. */
  lemma FromWideToWide(s: string)
    ensures FromWide(ToWide(s)) == Ok(BeforeNul(s))
  {
    var p := BeforeNul(s);
    var w := ToWide(s);
    var e := Encode(p);
    EncodeZeroIff(p);
    if |p| < |s| {
      var rest := s[|p| + 1..];
      assert s == p + (['\0'] + rest);
      EncodeAppend(p, ['\0'] + rest);
      EncodeAppend(['\0'], rest);
      assert Encode(['\0']) == [0];
      assert w == e + ([0] + Encode(rest) + [0]);
    } else {
      assert p == s;
      assert w == e + [0];
    }
    assert w[|e|] == 0;
    assert forall j | 0 <= j < |e| :: w[j] == e[j];
    FirstZeroOf(w, |e|);
    assert w[..|e|] == e;
    DecodeEncode(p);
  }

  /** The round trip is exact for text without U+0000. */
  lemma FromWideToWideNulFree(s: string)
    requires '\0' !in s
    ensures FromWide(ToWide(s)) == Ok(s)
  {
    FromWideToWide(s);
    assert BeforeNul(s) == s;
  }

  /** Appending a terminator does not change the decoded text. */
  lemma FromWideAppendZero(wide: seq<U16>)
    ensures FromWide(wide + [0]) == FromWide(wide)
  {
    var k := FirstZero(wide);
    FirstZeroOf(wide + [0], k);
    assert (wide + [0])[..k] == wide[..k];
  }

  /** Nothing after the first zero unit influences the result. */
  lemma FromWideIgnoresTail(wide: seq<U16>, tail: seq<U16>)
    requires 0 in wide
    ensures FromWide(wide[..FirstZero(wide) + 1] + tail) == FromWide(wide)
  {
    var k := FirstZero(wide);
    var v := wide[..k + 1] + tail;
    assert forall j | 0 <= j <= k :: v[j] == wide[j];
    FirstZeroOf(v, k);
    assert v[..k] == wide[..k];
  }

  lemma ToWideEmpty()
    ensures ToWide("") == [0]
  {
  }

  lemma ToWideHello()
    ensures ToWide("Hello") == [72, 101, 108, 108, 111, 0]
  {
    assert Encode("o") == [111];
    assert Encode("lo") == [108, 111];
    assert Encode("llo") == [108, 108, 111];
    assert Encode("ello") == [101, 108, 108, 111];
  }

  /** A character outside the Basic Multilingual Plane takes a surrogate pair. */
  lemma ToWideSupplementary()
    ensures ToWide("\U{1F389}") == [0xD83C, 0xDF89, 0]
    ensures FromWide([0xD83C, 0xDF89, 0]) == Ok("\U{1F389}")
  {
    assert Encode("\U{1F389}") == EncodeScalar('\U{1F389}');
    FromWideToWideNulFree("\U{1F389}");
  }

  /** A lone high surrogate, a lone low surrogate and a reversed pair are rejected. */
  lemma FromWideRejectsUnpaired()
    ensures FromWide([0xD800, 0]) == Err(StringConversion)
    ensures FromWide([0xDC00, 0]) == Err(StringConversion)
    ensures FromWide([0xDC00, 0xD800, 0]) == Err(StringConversion)
  {
    assert !UnitPaired([0xD800], 0);
    assert !UnitPaired([0xDC00], 0);
    assert !UnitPaired([0xDC00, 0xD800], 0);
    assert [0xD800, 0][..FirstZero([0xD800, 0])] == [0xD800];
    assert [0xDC00, 0][..FirstZero([0xDC00, 0])] == [0xDC00];
    assert [0xDC00, 0xD800, 0][..FirstZero([0xDC00, 0xD800, 0])] == [0xDC00, 0xD800];
  }

  /** Unlike `from_wide`, the length-bounded decoder keeps interior zeros and
      clamps the length to the slice. */
  lemma FromWideWithLenKeepsZeros()
    ensures FromWideWithLen([65, 0, 66], 3) == Ok("A\0B")
    ensures FromWideWithLen([65, 0, 66], 9) == Ok("A\0B")
    ensures FromWide([65, 0, 66]) == Ok("A")
  {
    var w: seq<U16> := [65, 0, 66];
    assert Encode("B") == [66];
    assert Encode("\0B") == [0, 66];
    assert Encode("A\0B") == w;
    DecodeEncode("A\0B");
    assert w[..3] == w;
    FirstZeroOf(w, 1);
    assert w[..1] == [65] == Encode("A");
    DecodeEncode("A");
  }
}
