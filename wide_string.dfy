/**
 * `WideString`: an owned, null-terminated UTF-16 buffer with a small-string
 * representation.  Short contents live in a fixed 23-unit inline buffer whose
 * `len` counts the terminator; longer contents live in a heap vector.
 */
module WideStrings {
  import opened Ints
  import opened Errors
  import opened Utf16
  import opened WideCodec

  /** `INLINE_CAP`: inline slots, terminator included. */
  const InlineCap: nat := 23

  /** What `to_string_lossy` returns for a buffer that does not decode: the
      three characters the source spells out, which are the UTF-8 bytes of
      U+FFFD read in the Mac Roman code page. */
  const Replacement: string := "\U{D4}\U{F8}\U{3A9}"

  datatype WideString =
    | Inline(buf: seq<U16>, len: U8)
    | Heap(vec: seq<U16>)
  {
    /** The representation invariant: the inline buffer has exactly
        `InlineCap` slots and `len` does not exceed them. */
    predicate Valid()
    {
      Inline? ==> |buf| == InlineCap && len <= InlineCap
    }

    /** `is_inline`. */
    predicate IsInline()
    {
      Inline?
    }

    /** `as_slice`: the stored units, terminator included. */
    function AsSlice(): (r: seq<U16>)
      requires Valid()
      ensures Inline? ==> |r| <= InlineCap && r == buf[..|r|]
    {
      match this
      case Inline(buf, len) => buf[..len]
      case Heap(vec) => vec
    }

    /** `len`: the number of units without the terminator, never below zero. */
    function Len(): (n: nat)
      requires Valid()
      ensures |AsSlice()| >= 1 ==> n == |AsSlice()| - 1
      ensures |AsSlice()| == 0 ==> n == 0
    {
      match this
      case Inline(_, len) => if len >= 1 then len - 1 else 0
      case Heap(vec) => if |vec| >= 1 then |vec| - 1 else 0
    }

    /** `is_empty`. */
    predicate IsEmpty()
      requires Valid()
    {
      Len() == 0
    }

    /** `to_string_lossy`: the decoded text, or the replacement character. */
    function ToStringLossy(): (r: string)
      requires Valid()
      ensures FromWide(AsSlice()).Ok? ==> r == FromWide(AsSlice()).value && '\0' !in r
      ensures FromWide(AsSlice()).Err? ==> r == Replacement
    {
      match FromWide(AsSlice())
      case Ok(s) => s
      case Err(_) => Replacement
    }
  }

  /** `clone`: the copy keeps the representation and the stored units. */
  function Clone(w: WideString): (r: WideString)
    requires w.Valid()
    ensures r.Valid() && r.IsInline() == w.IsInline() && r.AsSlice() == w.AsSlice()
  {
    match w
    case Inline(buf, len) => Inline(buf, len)
    case Heap(vec) => Heap(vec)
  }

  /** A sequence of `n` zero units. */
  function Zeros(n: nat): (r: seq<U16>)
    ensures |r| == n && forall i | 0 <= i < n :: r[i] == 0
  {
    if n == 0 then [] else [0] + Zeros(n - 1)
  }

  /**
   * `WideString::new`: the text is encoded straight into a zeroed inline buffer
   * when it fits with its terminator, otherwise `to_wide` goes to the heap.
   */
  method New(s: string) returns (w: WideString)
    ensures w.Valid()
    ensures w.IsInline() <==> Utf16Len(s) + 1 <= InlineCap
    ensures w.AsSlice() == ToWide(s)
    ensures w.Inline? ==> forall i | w.len <= i < InlineCap :: w.buf[i] == 0
  {
    var utf16Len := Utf16Len(s);
    var totalLen := utf16Len + 1;
    if totalLen <= InlineCap {
      var units := Encode(s);
      EncodeLength(s);
      var buf := new U16[InlineCap](_ => 0);
      var idx := 0;
      while idx < |units|
        invariant 0 <= idx <= |units|
        invariant buf[..idx] == units[..idx]
        invariant forall i | idx <= i < InlineCap :: buf[i] == 0
      {
        buf[idx] := units[idx];
        idx := idx + 1;
      }
      buf[idx] := 0;
      w := Inline(buf[..], totalLen);
      assert w.AsSlice() == buf[..idx + 1] == units + [0];
    } else {
      w := Heap(ToWide(s));
    }
  }

  /** `from_vec`: stores the vector as given, inline when it fits; no terminator
      is added or checked. */
  function FromVec(vec: seq<U16>): (w: WideString)
    ensures w.Valid()
    ensures w.IsInline() <==> |vec| <= InlineCap
    ensures w.AsSlice() == vec
  {
    if |vec| <= InlineCap then
      var buf := vec + Zeros(InlineCap - |vec|);
      assert buf[..|vec|] == vec;
      Inline(buf, |vec|)
    else Heap(vec)
  }

  /**
   * `with_capacity` as written: the inline arm holds the empty string with its
   * terminator, but the heap arm holds an empty vector with no terminator.
   */
  function WithCapacity(capacity: nat): (w: WideString)
    ensures w.Valid() && w.Len() == 0
    ensures w.IsInline() <==> capacity <= InlineCap
    ensures w.IsInline() ==> w.AsSlice() == [0]
    ensures !w.IsInline() ==> w.AsSlice() == []
  {
    if capacity <= InlineCap then Inline(Zeros(InlineCap), 1)
    else Heap([])
  }

  /** A heap-backed `with_capacity` result is not null-terminated: the pointer it
      hands to the operating system is not a C string. */
  lemma WithCapacityHeapUnterminated()
    ensures 0 !in WithCapacity(InlineCap + 1).AsSlice()
    ensures 0 in WithCapacity(InlineCap).AsSlice()
  {
  }

  /** `with_capacity` as evidently intended: an empty, terminated string in both
      representations. */
  function WithCapacityTerminated(capacity: nat): (w: WideString)
    ensures w.Valid() && w.Len() == 0
    ensures w.IsInline() <==> capacity <= InlineCap
    ensures w.AsSlice() == ToWide("")
  {
    if capacity <= InlineCap then Inline(Zeros(InlineCap), 1)
    else Heap([0])
  }

  /** Every representation of `to_wide(s)` reads back as the text before its
      first U+0000 and has the UTF-16 length of `s`. */
  lemma ToStringLossyOfToWide(w: WideString, s: string)
    requires w.Valid() && w.AsSlice() == ToWide(s)
    ensures w.ToStringLossy() == BeforeNul(s)
    ensures w.Len() == Utf16Len(s)
  {
    FromWideToWide(s);
  }

  /** Converting a vector and reading it back agrees with `from_wide` on it. */
  lemma FromVecToStringLossy(vec: seq<U16>)
    ensures FromWide(vec).Ok? ==> FromVec(vec).ToStringLossy() == FromWide(vec).value
    ensures FromVec(vec).Len() == if |vec| == 0 then 0 else |vec| - 1
  {
  }

  /** `is_empty` holds exactly when the stored slice has at most one unit. */
  lemma IsEmptyIff(w: WideString)
    requires w.Valid()
    ensures w.IsEmpty() <==> |w.AsSlice()| <= 1
  {
  }

  /** The boundary the tests pin down: 22 units fit inline, 23 do not; a
      surrogate pair counts two units. */
  lemma InlineBoundary(s: string)
    ensures (forall c | c in s :: c == 'a') && |s| == InlineCap - 1 ==> Utf16Len(s) + 1 <= InlineCap
    ensures (forall c | c in s :: c == 'a') && |s| == InlineCap ==> Utf16Len(s) + 1 > InlineCap
    ensures Utf16Len("\U{1F389}") == 2
  {
    if forall c | c in s :: c == 'a' {
      AllBmpLength(s);
    }
  }

  /** Text made only of Basic Multilingual Plane characters takes one unit each. */
  lemma {:induction false} AllBmpLength(s: string)
    requires forall c | c in s :: c as int < 0x1_0000
    ensures Utf16Len(s) == |s|
  {
    if s != [] {
      assert s[0] in s;
      assert forall c | c in s[1..] :: c in s;
      AllBmpLength(s[1..]);
    }
  }
}
