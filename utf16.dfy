/**
 * UTF-16 as defined in RFC 2781 (section 2.1 encoding, section 2.2 decoding),
 * the conversions behind Rust's `str::encode_utf16` and `String::from_utf16`
 * that the wide-string layer is built on.  Text is a Dafny `string`, whose
 * characters are Unicode scalar values exactly like Rust's `char`.
 */
module Utf16 {
  import opened Ints
  import opened Errors

  predicate IsHighSurrogate(u: int) { 0xD800 <= u <= 0xDBFF }
  predicate IsLowSurrogate(u: int) { 0xDC00 <= u <= 0xDFFF }
  predicate IsSurrogate(u: int) { 0xD800 <= u <= 0xDFFF }

  /** Number of UTF-16 units of one scalar (`char::len_utf16`). */
  function ScalarLen16(c: char): nat
  {
    if c as int < 0x1_0000 then 1 else 2
  }

  /** Number of UTF-8 bytes of one scalar (`char::len_utf8`). */
  function ScalarLen8(c: char): nat
  {
    if c as int < 0x80 then 1
    else if c as int < 0x800 then 2
    else if c as int < 0x1_0000 then 3
    else 4
  }

  /** `s.chars().map(|c| c.len_utf16()).sum()` */
  function Utf16Len(s: string): nat
  {
    if s == [] then 0 else ScalarLen16(s[0]) + Utf16Len(s[1..])
  }

  /** `s.len()`: the byte length of the UTF-8 representation. */
  function Utf8Len(s: string): nat
  {
    if s == [] then 0 else ScalarLen8(s[0]) + Utf8Len(s[1..])
  }

  /** The scalar a high/low surrogate pair stands for (RFC 2781, section 2.2, step 4). */
  function Combine(hi: U16, lo: U16): (c: char)
    requires IsHighSurrogate(hi) && IsLowSurrogate(lo)
    ensures 0x1_0000 <= c as int
  {
    (0x1_0000 + (hi - 0xD800) * 0x400 + (lo - 0xDC00)) as char
  }

  /** UTF-16 units of one scalar (RFC 2781, section 2.1). */
  function EncodeScalar(c: char): (r: seq<U16>)
    ensures |r| == ScalarLen16(c)
    ensures |r| == 1 ==> r[0] == c as int && !IsSurrogate(r[0])
    ensures |r| == 2 ==> IsHighSurrogate(r[0]) && IsLowSurrogate(r[1]) && Combine(r[0], r[1]) == c
  {
    var v := c as int;
    if v < 0x1_0000 then [v]
    else
      var w := v - 0x1_0000;
      [0xD800 + w / 0x400, 0xDC00 + w % 0x400]
  }

  /** `s.encode_utf16()`, collected. */
  function Encode(s: string): (r: seq<U16>)
  {
    if s == [] then [] else EncodeScalar(s[0]) + Encode(s[1..])
  }

  function Prepend(c: char, r: Option<string>): Option<string>
  {
    if r.Some? then Some([c] + r.value) else None
  }

  /** `String::from_utf16`: None on an unpaired surrogate or a reversed pair. */
  function Decode(w: seq<U16>): Option<string>
    decreases |w|
  {
    if w == [] then Some([])
    else if !IsSurrogate(w[0]) then Prepend(w[0] as char, Decode(w[1..]))
    else if IsHighSurrogate(w[0]) && |w| >= 2 && IsLowSurrogate(w[1]) then
      Prepend(Combine(w[0], w[1]), Decode(w[2..]))
    else None
  }

  /** Unit i obeys RFC 2781's pairing rule: a high surrogate is followed by a low one
      and a low surrogate is preceded by a high one. */
  predicate UnitPaired(w: seq<U16>, i: nat)
    requires i < |w|
  {
    && (IsHighSurrogate(w[i]) ==> i + 1 < |w| && IsLowSurrogate(w[i + 1]))
    && (IsLowSurrogate(w[i]) ==> i > 0 && IsHighSurrogate(w[i - 1]))
  }

  /** A well-formed UTF-16 sequence: every surrogate is part of a high/low pair. */
  predicate WellFormed(w: seq<U16>)
  {
    forall i | 0 <= i < |w| :: UnitPaired(w, i)
  }

  lemma {:induction false} EncodeLength(s: string)
    ensures |Encode(s)| == Utf16Len(s)
  {
    if s != [] { EncodeLength(s[1..]); }
  }

  /** The `s.len() + 1` capacity `to_wide` reserves always suffices. */
  lemma {:induction false} Utf16LenAtMostUtf8Len(s: string)
    ensures Utf16Len(s) <= Utf8Len(s)
  {
    if s != [] { Utf16LenAtMostUtf8Len(s[1..]); }
  }

  lemma {:induction false} EncodeAppend(a: string, b: string)
    ensures Encode(a + b) == Encode(a) + Encode(b)
  {
    if a == [] {
      assert a + b == b;
    } else {
      assert (a + b)[1..] == a[1..] + b;
      EncodeAppend(a[1..], b);
    }
  }

  /** A zero unit appears in the encoding exactly where U+0000 appears in the text. */
  lemma {:induction false} EncodeZeroIff(s: string)
    ensures 0 in Encode(s) <==> '\0' in s
  {
    if s != [] {
      EncodeZeroIff(s[1..]);
      var e := EncodeScalar(s[0]);
      assert Encode(s) == e + Encode(s[1..]);
      assert 0 in e <==> s[0] == '\0';
      assert '\0' in s <==> s[0] == '\0' || '\0' in s[1..];
    }
  }

  /** RFC 2781 round trip: decoding an encoding gives back the text. */
  lemma {:induction false} DecodeEncode(s: string)
    ensures Decode(Encode(s)) == Some(s)
  {
    if s != [] {
      DecodeEncode(s[1..]);
      var e := EncodeScalar(s[0]);
      var w := e + Encode(s[1..]);
      assert Encode(s) == w;
      if |e| == 1 {
        assert w[1..] == Encode(s[1..]);
        assert w[0] as char == s[0];
      } else {
        assert w[2..] == Encode(s[1..]);
      }
      assert [s[0]] + s[1..] == s;
    }
  }

  /** Decoding is injective: a successful decode re-encodes to exactly its input. */
  lemma {:induction false} EncodeDecode(w: seq<U16>)
    requires Decode(w).Some?
    ensures Encode(Decode(w).value) == w
  {
    if w != [] {
      var s := Decode(w).value;
      if !IsSurrogate(w[0]) {
        EncodeDecode(w[1..]);
        assert s == [w[0] as char] + Decode(w[1..]).value;
        assert s[1..] == Decode(w[1..]).value;
        assert w == [w[0]] + w[1..];
      } else {
        EncodeDecode(w[2..]);
        var c := Combine(w[0], w[1]);
        assert s == [c] + Decode(w[2..]).value;
        assert s[1..] == Decode(w[2..]).value;
        var e := EncodeScalar(c);
        assert |e| == 2;
        CombineInjective(e[0], e[1], w[0], w[1]);
        assert w == [w[0], w[1]] + w[2..];
      }
    }
  }

  lemma CombineInjective(h1: U16, l1: U16, h2: U16, l2: U16)
    requires IsHighSurrogate(h1) && IsLowSurrogate(l1)
    requires IsHighSurrogate(h2) && IsLowSurrogate(l2)
    requires Combine(h1, l1) == Combine(h2, l2)
    ensures h1 == h2 && l1 == l2
  {
    var a := (h1 - 0xD800) * 0x400 + (l1 - 0xDC00);
    var b := (h2 - 0xD800) * 0x400 + (l2 - 0xDC00);
    assert a == b;
    assert a / 0x400 == h1 - 0xD800 && a % 0x400 == l1 - 0xDC00;
    assert b / 0x400 == h2 - 0xD800 && b % 0x400 == l2 - 0xDC00;
  }

  /** `String::from_utf16` fails exactly on the sequences RFC 2781 calls ill-formed. */
  lemma {:induction false} DecodeSucceedsIff(w: seq<U16>)
    ensures Decode(w).Some? <==> WellFormed(w)
    decreases |w|
  {
    if w == [] {
    } else if !IsSurrogate(w[0]) {
      DecodeSucceedsIff(w[1..]);
      WellFormedShift(w, 1);
    } else if IsHighSurrogate(w[0]) && |w| >= 2 && IsLowSurrogate(w[1]) {
      DecodeSucceedsIff(w[2..]);
      WellFormedShift(w, 2);
    } else {
      assert !UnitPaired(w, 0);
    }
  }

  /** Dropping a prefix that ends on a non-surrogate or on a complete pair keeps
      well-formedness unchanged. */
  lemma WellFormedShift(w: seq<U16>, k: nat)
    requires 1 <= k <= 2 && k <= |w|
    requires k == 1 ==> !IsSurrogate(w[0])
    requires k == 2 ==> IsHighSurrogate(w[0]) && IsLowSurrogate(w[1])
    ensures WellFormed(w) <==> WellFormed(w[k..])
  {
    var t := w[k..];
    if WellFormed(w) {
      forall j | 0 <= j < |t| ensures UnitPaired(t, j) {
        assert UnitPaired(w, j + k);
      }
    }
    if WellFormed(t) {
      forall i | 0 <= i < |w| ensures UnitPaired(w, i) {
        if i >= k {
          assert UnitPaired(t, i - k);
        }
      }
    }
  }

  lemma EncodeWellFormed(s: string)
    ensures WellFormed(Encode(s))
  {
    DecodeEncode(s);
    DecodeSucceedsIff(Encode(s));
  }
}
