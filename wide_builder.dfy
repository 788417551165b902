/**
 * `WideStringBuilder`: an append-only UTF-16 buffer that carries no terminator
 * until it is built.
 */
module WideBuilder {
  import opened Ints
  import opened Errors
  import opened Utf16
  import opened WideCodec

  class WideStringBuilder {
    /** The units appended so far, without terminator. */
    var buffer: seq<U16>
    /** The vector's capacity; its growth policy is left abstract. */
    var capacity: nat

    ghost predicate Valid()
      reads this
    {
      |buffer| <= capacity
    }

    /** `new` / `Default`. */
    constructor ()
      ensures Valid() && buffer == [] && capacity == 0
    {
      buffer := [];
      capacity := 0;
    }

    /** `with_capacity`. */
    constructor WithCapacity(cap: nat)
      ensures Valid() && buffer == [] && capacity == cap
    {
      buffer := [];
      capacity := cap;
    }

    /** `len`: the units held, terminator not counted. */
    function Len(): nat
      reads this
    {
      |buffer|
    }

    /** `is_empty`. */
    predicate IsEmpty()
      reads this
    {
      Len() == 0
    }

    /** `push`: appends the UTF-16 encoding of `s`. */
    method Push(s: string)
      requires Valid()
      modifies this
      ensures Valid()
      ensures buffer == old(buffer) + Encode(s)
      ensures Len() == old(Len()) + Utf16Len(s)
      ensures capacity >= old(capacity)
    {
      EncodeLength(s);
      buffer := buffer + Encode(s);
      if capacity < |buffer| {
        capacity := |buffer|;
      }
    }

    /** `push_char`: appends one code unit, whatever it is. */
    method PushChar(c: U16)
      requires Valid()
      modifies this
      ensures Valid()
      ensures buffer == old(buffer) + [c] && Len() == old(Len()) + 1
      ensures capacity >= old(capacity)
    {
      buffer := buffer + [c];
      if capacity < |buffer| {
        capacity := |buffer|;
      }
    }

    /** `build`: the contents followed by a single terminator.  The source's
        `build(mut self)` consumes the builder; here it stays usable, and
        callers that follow the source do not touch it again. */
    method Build() returns (wide: seq<U16>)
      ensures |wide| == Len() + 1 && wide[Len()] == 0
      ensures wide[..Len()] == buffer
    {
      wide := buffer + [0];
    }

    /** `clear`: drops the contents and keeps the allocation. */
    method Clear()
      modifies this
      ensures Valid()
      ensures buffer == [] && capacity == old(capacity)
    {
      buffer := [];
    }

    /** `build_and_clear`: `mem::take` hands the vector out and leaves a fresh,
        unallocated one behind, so the allocation is not reused. */
    method BuildAndClear() returns (wide: seq<U16>)
      modifies this
      ensures wide == old(buffer) + [0]
      ensures Valid() && buffer == [] && capacity == 0
    {
      wide := buffer + [0];
      buffer := [];
      capacity := 0;
    }
  }

  /** The concatenation of a list of texts. */
  function Concat(segments: seq<string>): string
  {
    if segments == [] then [] else Concat(segments[..|segments| - 1]) + segments[|segments| - 1]
  }

  /** The buffer after pushing every segment, in order. */
  function Pushed(segments: seq<string>): (units: seq<U16>)
    ensures units == Encode(Concat(segments))
  {
    if segments == [] then []
    else
      var init := segments[..|segments| - 1];
      EncodeAppend(Concat(init), segments[|segments| - 1]);
      Pushed(init) + Encode(segments[|segments| - 1])
  }

  /** A built buffer decodes to the concatenation of what was pushed when the
      segments carry no U+0000. */
  lemma BuildDecodesToConcat(segments: seq<string>)
    requires forall i | 0 <= i < |segments| :: '\0' !in segments[i]
    ensures FromWide(Pushed(segments) + [0]) == Ok(Concat(segments))
    ensures |Pushed(segments)| == Utf16Len(Concat(segments))
  {
    ConcatNulFree(segments);
    FromWideToWideNulFree(Concat(segments));
    EncodeLength(Concat(segments));
  }

  lemma {:induction false} ConcatNulFree(segments: seq<string>)
    requires forall i | 0 <= i < |segments| :: '\0' !in segments[i]
    ensures '\0' !in Concat(segments)
  {
    if segments != [] {
      ConcatNulFree(segments[..|segments| - 1]);
    }
  }

  /** Pushing three segments into a fresh builder and building decodes to their
      concatenation (the shape of `push("Hello").push(", ").push("World!")`). */
  method BuildThree(a: string, b: string, c: string) returns (decoded: Result<string>)
    requires '\0' !in a && '\0' !in b && '\0' !in c
    ensures decoded == Ok(a + b + c)
  {
    var builder := new WideStringBuilder();
    builder.Push(a);
    builder.Push(b);
    builder.Push(c);
    var wide := builder.Build();
    BuiltThree(a, b, c, builder.buffer, wide);
    decoded := FromWide(wide);
  }

  /** The buffer of three pushes, once built, decodes to the three texts joined. */
  lemma BuiltThree(a: string, b: string, c: string, buffer: seq<U16>, wide: seq<U16>)
    requires '\0' !in a && '\0' !in b && '\0' !in c
    requires buffer == [] + Encode(a) + Encode(b) + Encode(c)
    requires |wide| == |buffer| + 1 && wide[|buffer|] == 0 && wide[..|buffer|] == buffer
    ensures FromWide(wide) == Ok(a + b + c)
  {
    calc {
      buffer;
      [] + Encode(a) + Encode(b) + Encode(c);
      { assert [] + Encode(a) == Encode(a); }
      Encode(a) + Encode(b) + Encode(c);
      { EncodeAppend(a, b); }
      Encode(a + b) + Encode(c);
      { EncodeAppend(a + b, c); }
      Encode(a + b + c);
    }
    Terminated(wide, buffer);
    assert wide == ToWide(a + b + c);
    FromWideToWideNulFree(a + b + c);
  }

  /** What `build` returns is the buffer with one zero appended. */
  lemma Terminated(wide: seq<U16>, buffer: seq<U16>)
    requires |wide| == |buffer| + 1 && wide[|buffer|] == 0 && wide[..|buffer|] == buffer
    ensures wide == buffer + [0]
  {
    assert wide == wide[..|buffer|] + [wide[|buffer|]];
  }
}
