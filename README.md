# ergonomic-windows: wide strings and the pure logic of its wrappers

This project models, in Dafny, the part of the `ergonomic-windows` crate that does not depend on the operating system. ergonomic-windows is a Rust crate of safe wrappers around Win32.

- **Strings.** The centre of the model is the crate's UTF-16 string layer in `src/string.rs`:
  - converting text to null-terminated wide buffers and back (`to_wide`, `from_wide`, `from_wide_ptr`, `from_wide_with_len`);
  - the append-only `WideStringBuilder`;
  - `WideString`, an owned, null-terminated buffer with a 23-unit inline representation;
  - `WideStringPool`, which recycles vectors by capacity, and its `PooledWideString`.
- **Encoding.** UTF-16 itself follows RFC 2781. Section 2.1 covers encoding and section 2.2 decoding. Text is a Dafny `string`, whose characters are Unicode scalar values, like Rust's `char`.
- **The other modules,** modelled only where they compute something themselves:
  - **Process:** argument quoting (`quote_arg`), the command line and the environment block that `Command` builds, and the creation flags of `spawn`.
  - **Registry:** access masks, `Value`, and the byte encodings of `get_value` and `set_value` for REG_SZ, REG_EXPAND_SZ, REG_MULTI_SZ, REG_DWORD, REG_QWORD and REG_BINARY.
  - **Console:** colour codes, the packed text attribute word, the trailing CR LF trim of `read_line` and the window size.
  - **Files:** attribute words, the `MoveOptions` flags, and the access, share and creation-disposition words of `OpenOptions`.
  - **Time:** tick-to-`Duration` conversion, the `Stopwatch` state machine, time-zone biases, day and month names, and splitting and joining file times.
  - **XAML and system information:** `XamlColor` hex packing, processor-architecture codes, and the Windows version predicates and display string.

Integer widths are subset types (`U8`, `U16`, `U32`, `U64`, `I16`, `I32` in `ints.dfy`). Flag words are `bv32`, and console attributes are `bv16`.

**Modelling choices:**
- **Stateful types are classes.** Types whose methods update them in place are classes with `modifies` clauses: `WideStringBuilder`, `WideStringPool`, `Stopwatch` and `Command`. Value types are datatypes.
- **Loops are methods.** Each loop of the source is a method that is proved against a specification function:
  - `from_wide_ptr`'s terminator search;
  - `quote_arg`'s scan;
  - the MULTI_SZ split and join of the registry;
  - the environment block;
  - the pool's first-fit search and preallocation.
- **Counter readings are inputs.** The performance counter readings that the stopwatch takes become `now` parameters.

The argument quoting has a partner: a command-line reader that follows the `CommandLineToArgvW` rules. The project proves that reading back a built command line gives the program and the arguments. Registry values, MULTI_SZ lists, environment blocks, file times, console attributes and XAML colours each have a round-trip lemma.

## Model

| member | source | states |
|---|---|---|
| Utf16.EncodeScalar | src/string.rs:21-29 | a scalar below U+10000 becomes its own non-surrogate unit; any other becomes a high and a low surrogate that combine back to it |
| Utf16.Combine | src/string.rs:56-62 | a surrogate pair stands for a scalar outside the Basic Multilingual Plane |
| Utf16.EncodeLength | src/string.rs:21-29 | the encoding has as many units as the characters' `len_utf16` add up to |
| Utf16.Utf16LenAtMostUtf8Len | src/string.rs:21-29 | the `s.len() + 1` capacity `to_wide` reserves is never too small |
| Utf16.EncodeAppend | src/string.rs:146-150 | encoding a concatenation concatenates the encodings (what successive pushes rely on) |
| Utf16.EncodeZeroIff | src/string.rs:21-29 | a zero unit appears in the encoding exactly when U+0000 appears in the text |
| Utf16.DecodeEncode | src/string.rs:56-62 | `from_utf16` of an encoding gives back the text |
| Utf16.EncodeDecode | src/string.rs:56-62 | a successful decode re-encodes to exactly its input (decoding is injective) |
| Utf16.DecodeSucceedsIff | src/string.rs:874-895 | decoding fails exactly on unpaired or reversed surrogates, the sequences RFC 2781 calls ill-formed |
| Utf16.EncodeWellFormed | src/string.rs:21-29 | every encoding is well-formed UTF-16 |
| WideCodec.FirstZero | src/string.rs:58 | the position of the first zero unit, or the length when there is none; every unit before it is non-zero |
| WideCodec.FirstZeroOf | src/string.rs:58 | any index with those properties is the first zero |
| WideCodec.FromUtf16 | src/string.rs:60-61 | succeeds exactly on well-formed input, returning the text that encodes to it; otherwise a string-conversion error |
| WideCodec.ToWide | src/string.rs:21-29 | exactly the encoding followed by one terminating zero, within the reserved capacity |
| WideCodec.FromWide | src/string.rs:56-62 | succeeds exactly when the units before the first zero are well-formed; the result encodes to them and holds no U+0000 |
| WideCodec.FromWideWithLen | src/string.rs:116-121 | decodes exactly the first min(len, length) units, zeros included; the error is a string-conversion error |
| WideCodec.FromWidePtr | src/string.rs:94-112 | a null pointer is a null-pointer error; otherwise the loop's result equals `from_wide` on the memory up to the terminator |
| WideCodec.FromWideToWide | src/string.rs:21-62 | decoding `to_wide(s)` gives the text of `s` before its first U+0000 |
| WideCodec.FromWideToWideNulFree | src/string.rs:644-650 | for text without U+0000 the round trip is exact |
| WideCodec.FromWideAppendZero | src/string.rs:56-62 | appending a terminator does not change the decoded text |
| WideCodec.FromWideIgnoresTail | src/string.rs:56-62 | nothing after the first zero influences the result |
| WideCodec.ToWideEmpty | src/string.rs:652-658 | the empty text becomes the single unit 0 |
| WideCodec.ToWideHello | src/string.rs:21-29 | "Hello" becomes its five ASCII units and a zero |
| WideCodec.ToWideSupplementary | src/string.rs:790-802 | U+1F389 becomes the pair D83C DF89 and reads back |
| WideCodec.FromWideRejectsUnpaired | src/string.rs:874-895 | a lone high surrogate, a lone low surrogate and a reversed pair are conversion errors |
| WideCodec.FromWideWithLenKeepsZeros | src/string.rs:116-121 | the length-bounded decoder keeps interior zeros that `from_wide` stops at, and clamps the length |
| WideStrings.WideString.AsSlice | src/string.rs:386-391 | the inline form shows the first `len` units of its buffer (at most 23) |
| WideStrings.WideString.Len | src/string.rs:359-365 | one less than the stored units (the terminator), never below zero |
| WideStrings.WideString.ToStringLossy | src/string.rs:380-382 | the decoded text when the slice decodes, the placeholder otherwise |
| WideStrings.Clone | src/string.rs:232-246 | the copy keeps the representation and the stored units |
| WideStrings.New | src/string.rs:253-279 | inline exactly when the encoding and its terminator fit in 23 units; either way the slice is `to_wide(s)` and the unused inline slots stay zero |
| WideStrings.FromVec | src/string.rs:325-340 | stores the vector unchanged, inline exactly when it fits in 23 units |
| WideStrings.WithCapacity | src/string.rs:286-297 | as written: length 0 in both forms; inline holds `[0]`, but the heap form holds an empty vector with no terminator |
| WideStrings.WithCapacityHeapUnterminated | src/string.rs:286-297 | a capacity of 24 gives a buffer with no zero unit, unlike a capacity of 23 |
| WideStrings.WithCapacityTerminated | src/string.rs:286-297 | corrected: an empty, terminated string `to_wide("")` in both forms |
| WideStrings.ToStringLossyOfToWide | src/string.rs:380-382 | any representation holding `to_wide(s)` reads back as `s` before its first U+0000, with length the UTF-16 length of `s` |
| WideStrings.FromVecToStringLossy | src/string.rs:325-340 | a vector stored by `from_vec` reads back as `from_wide` of it, with its length less one |
| WideStrings.IsEmptyIff | src/string.rs:368-371 | empty exactly when at most one unit is stored |
| WideStrings.WideString.IsEmpty | src/string.rs:368-370 | `len() == 0`; `IsEmptyIff` proves this holds exactly when at most one unit is stored |
| WideStrings.WideString.IsInline | src/string.rs:374-376 | the inline variant; `New` and `FromVec` state exactly when their results are inline |
| WideStrings.InlineBoundary | src/string.rs:678-702 | 22 ASCII characters fit inline and 23 do not; an emoji takes two units |
| WideStrings.AllBmpLength | src/string.rs:704-710 | text in the Basic Multilingual Plane takes one unit per character |
| WideBuilder.WideStringBuilder.constructor | src/string.rs:132-135 | empty, with no capacity |
| WideBuilder.WideStringBuilder.WithCapacity | src/string.rs:138-143 | empty, with the given capacity |
| WideBuilder.WideStringBuilder.Push | src/string.rs:146-150 | appends exactly the encoding of the text; length grows by its UTF-16 length |
| WideBuilder.WideStringBuilder.PushChar | src/string.rs:153-157 | appends the one unit, whatever it is |
| WideBuilder.WideStringBuilder.Build | src/string.rs:160-163 | the contents followed by a single zero |
| WideBuilder.WideStringBuilder.Clear | src/string.rs:167-170 | empties the contents and keeps the capacity |
| WideBuilder.WideStringBuilder.Len | src/string.rs:182-184 | the units held without a terminator; `Push` and `PushChar` state how it grows |
| WideBuilder.WideStringBuilder.IsEmpty | src/string.rs:188-190 | no units held; a new builder and one after `Clear` are empty |
| WideBuilder.WideStringBuilder.BuildAndClear | src/string.rs:175-179 | returns the contents and a zero, and leaves a fresh builder with no capacity |
| WideBuilder.Pushed | src/string.rs:146-150 | the buffer after pushing a list of texts is the encoding of their concatenation |
| WideBuilder.BuildDecodesToConcat | src/string.rs:160-163 | a built buffer decodes to the concatenation of the pushed NUL-free texts |
| WideBuilder.BuildThree | src/string.rs:660-667 | three pushes into a new builder, built and decoded, give the three texts joined |
| WidePool.PooledWideString.Len | src/string.rs:602-605 | the units without the terminator, never below zero |
| WidePool.PooledWideString.ToStringLossy | src/string.rs:620-622 | the decoded text, or the placeholder |
| WidePool.PooledWideString.IntoWideString | src/string.rs:634-637 | the units move unchanged into a `WideString`, inline exactly when they fit, and read back the same |
| WidePool.PooledWideString.IsEmpty | src/string.rs:608-610 | `len() == 0`, that is at most the terminator is held |
| WidePool.PooledWideString.AsSlice | src/string.rs:614-616 | the buffer with its terminator; `Get` states it is `to_wide(s)` |
| WidePool.PooledWideString.IntoVec | src/string.rs:628-630 | the buffer itself; `IntoWideString` states what the vector becomes |
| WidePool.FirstFit | src/string.rs:505 | the first pooled capacity that is large enough; all before it are too small |
| WidePool.FirstFitUnique | src/string.rs:505 | that index is the only one with both properties |
| WidePool.SwapRemove | src/string.rs:506 | one element fewer, the removed one gone from the multiset, the last element in its place, the rest untouched |
| WidePool.SwapRemoveUnsorts | src/string.rs:448 | the pool is not kept sorted by capacity, whatever its comment says: removing 8 from [8, 16, 32] gives [32, 16] |
| WidePool.WideStringPool.constructor | src/string.rs:461-467 | empty, at most 16 vectors of at most 4096 units |
| WidePool.WideStringPool.WithLimits | src/string.rs:476-482 | empty, with the given limits |
| WidePool.WideStringPool.WithPreallocated | src/string.rs:487-497 | `count` vectors of `capacity`; it may hold exactly that many, and capacities up to the larger of `capacity` and 4096 |
| WidePool.WideStringPool.Get | src/string.rs:500-516 | the result holds `to_wide(s)`; the first vector that fits is taken (swap-remove), otherwise a new one is allocated and the pool is unchanged |
| WidePool.WideStringPool.Put | src/string.rs:541-549 | the vector is kept only while the pool has room and it is not over the capacity limit |
| WidePool.WideStringPool.Clear | src/string.rs:563-565 | the pool is empty and the limits stay |
| WidePool.WideStringPool.ShrinkTo | src/string.rs:568-570 | only the first `size` vectors are kept |
| WidePool.WideStringPool.Len | src/string.rs:551-553 | the number of pooled vectors; `Put`, `Get` and `SizeCapScenario` state how it changes and that it stays within the size limit |
| WidePool.WideStringPool.IsEmpty | src/string.rs:557-559 | no pooled vector; `ReuseScenario` shows a vector put back and taken again |
| WidePool.GetPutKeepsSize | src/string.rs:727-746 | `get` then `put` of the same string keeps the pool's multiset of capacities |
| WidePool.ReuseScenario | src/string.rs:727-746 | a returned vector is reused by a later `get` that fits in it |
| WidePool.SizeCapScenario | src/string.rs:760-772 | with room for two vectors a third `put` is dropped |
| Process.QuoteArg | src/process.rs:335-375 | the scan over runs of backslashes returns the quoting function's result |
| Process.QuoteArgSpec | src/process.rs:335-375 | the reference quoting, character by character; `QuoteArg` is proved equal to it, and `QuoteArgUnchanged`, `QuoteArgShape` and `ParseQuoted` state what it guarantees |
| Process.QuoteArgUnchanged | src/process.rs:335-375 | the argument is returned unchanged exactly when it is non-empty and holds no space, tab or double quote |
| Process.QuoteArgShape | src/process.rs:339-370 | a quoted argument starts and ends with a double quote; the empty one is `""` |
| Process.BackslashRun | src/process.rs:345-360 | n backslashes become 2n before a double quote or the end, and stay n otherwise |
| Process.EscapeLength | src/process.rs:339-370 | quoting never shortens the body |
| Process.QuoteArgTab | src/process.rs:624 | a tab makes the argument quoted |
| Process.QuoteArgEmbeddedQuote | src/process.rs:627 | an embedded double quote is escaped inside quotes |
| Process.QuoteArgTrailingBackslash | src/process.rs:633 | a trailing backslash without blanks is left alone |
| Process.ParseQuoted | src/process.rs:335-375 | every quoted argument reads back as itself under the argument-reading rules |
| Process.ParsePlain | src/process.rs:337 | an unquoted argument, free of blanks and quotes, reads back as itself |
| Process.Parse | src/process.rs:335-375 | the reader of one argument consumes at least one character whenever an argument starts |
| Process.CommandLineRoundTrip | src/process.rs:300-314 | reading the built command line gives the program followed by the arguments |
| Process.CommandLine | src/process.rs:300-314 | the quoted program and each quoted argument after a space; `CommandLineRoundTrip` proves it reads back as the program and the arguments |
| Process.PushBackslashes | src/process.rs:353-359 | the loop appends exactly n backslashes |
| Process.SkipRun | src/process.rs:346-350 | the inner loop stops just past a run of backslashes, counting them |
| Process.Entries | src/process.rs:319-325 | one `key=value` entry per variable |
| Process.EnvBlockRoundTrip | src/process.rs:316-328 | splitting the block at its zeros gives back the entries |
| Process.EnvBlock | src/process.rs:316-328 | none without variables, else each `key=value` in UTF-16 with a zero and one more zero; `EnvBlockRoundTrip` and `EnvBlockEmpty` state its contents |
| Process.EnvBlockEmpty | src/process.rs:316-328 | an empty variable list gives the block `[0]` |
| Process.SpawnFlags | src/process.rs:239-243 | the caller's flags are kept, and CREATE_UNICODE_ENVIRONMENT is added when there is an environment |
| Process.SpawnFlagsNoEnv | src/process.rs:239-243 | without an environment the flags pass through unchanged; with one, a bit that is neither a caller's flag nor CREATE_UNICODE_ENVIRONMENT stays clear |
| Process.Command.constructor | src/process.rs:167-175 | the program, no arguments, no directory, no flags, no environment |
| Process.Command.Arg | src/process.rs:178-181 | appends one argument and changes nothing else |
| Process.Command.Args | src/process.rs:184-191 | appends the arguments in order and changes nothing else |
| Process.Command.CurrentDir | src/process.rs:194-197 | sets the directory and changes nothing else |
| Process.Command.NewConsole | src/process.rs:200-203 | adds CREATE_NEW_CONSOLE to the flags and changes nothing else |
| Process.Command.NoWindow | src/process.rs:206-209 | adds CREATE_NO_WINDOW to the flags and changes nothing else |
| Process.Command.Env | src/process.rs:212-217 | appends one variable, creating the list on the first call |
| Process.Command.BuildCommandLine | src/process.rs:300-314 | the quoted program and arguments; read back, the command line gives the program and the arguments |
| Process.Command.BuildEnvBlock | src/process.rs:316-328 | the loop builds the environment block function's value |
| Process.Command.SpawnCreationFlags | src/process.rs:239-243 | the flags `spawn` hands to the OS |
| RegistryAccess.With | src/registry.rs:82-84 | every right of either mask is granted |
| RegistryAccess.WithAddsNothing | src/registry.rs:82-84 | a right that neither mask grants is not granted by the combination |
| RegistryAccess.AccessCombinations | src/registry.rs:884-891 | read with write grants both; read with WOW64_32 grants the WOW64 bit |
| Registry.Value.AsString | src/registry.rs:126-132 | answers for exactly the two string kinds, with their text |
| Registry.Value.AsDword | src/registry.rs:134-140 | answers for exactly a DWORD, with its value |
| Registry.Value.AsQword | src/registry.rs:142-148 | answers for exactly a QWORD, with its value |
| Registry.Value.AsBinary | src/registry.rs:150-155 | answers for exactly binary data, with its bytes |
| Registry.ValueConstructors | src/registry.rs:894-906 | each constructor's value answers its own accessor and not another's |
| Registry.LeToNat | src/registry.rs:346-364 | a little-endian byte string denotes a number below 256 to the power of its length |
| Registry.LeOfNat | src/registry.rs:398-399 | writing a number in n little-endian bytes and reading it back gives the number |
| Registry.NatOfLe | src/registry.rs:346-364 | reading bytes and writing the number back gives the bytes |
| Registry.BytesToUnits | src/registry.rs:318-321 | half as many units as bytes, rounded down |
| Registry.UnitsToBytes | src/registry.rs:380-381 | two bytes per unit |
| Registry.UnitsOfBytes | src/registry.rs:318-321 | reading the bytes of units gives back the units |
| Registry.OddByteIgnored | src/registry.rs:318-321 | a trailing odd byte does not take part in the conversion |
| Registry.DecodeAll | src/registry.rs:329-345 | one string per segment on success; a failure is a string-conversion error |
| Registry.SplitMultiAt | src/registry.rs:329-345 | a zero closes the segment before it; empty segments are skipped |
| Registry.DecodeMultiSz | src/registry.rs:329-345 | the scan's result equals decoding the zero-terminated non-empty segments in order, the first failure winning |
| Registry.SegmentsAreSplit | src/registry.rs:329-345 | from any start, the scan cuts the same segments as the splitting function |
| Registry.MultiSzUnits | src/registry.rs:388-397 | the layout ends with a zero |
| Registry.MultiSzBodySnoc | src/registry.rs:388-397 | a further string adds its encoding and one zero |
| Registry.EncodeMultiSz | src/registry.rs:388-397 | the loop builds each string's units and a zero, then one more zero |
| Registry.NonEmpty | src/registry.rs:329-345 | the list without its empty strings is no longer than the list |
| Registry.MultiSzRoundTrip | src/registry.rs:329-397 | reading back a written list of NUL-free strings gives the list without its empty strings |
| Registry.UnterminatedTailDropped | src/registry.rs:329-345 | units after the last zero are ignored |
| Registry.ValueFromBytes | src/registry.rs:316-370 | the decoded value carries the stored type; DWORD and QWORD need 4 and 8 bytes; binary is the bytes; any other type is an unsupported-type error |
| Registry.ValueToBytes | src/registry.rs:376-401 | the stored type is the value's tag; DWORD and QWORD take 4 and 8 bytes |
| Registry.DecodeValue | src/registry.rs:316-370 | the decoding with its MULTI_SZ loop equals the decoding function |
| Registry.EncodeValue | src/registry.rs:376-401 | the encoding with its MULTI_SZ loop equals the encoding function |
| Registry.ValueRoundTrip | src/registry.rs:316-401 | writing a value without U+0000 in its strings and without empty list entries, then reading it back, gives the same value |
| Registry.IntegerPrefixOnly | src/registry.rs:346-364 | the DWORD and QWORD decoders read only the leading bytes |
| Registry.StringOddByte | src/registry.rs:317-328 | a string buffer with an odd byte count decodes as if the byte were absent |
| Registry.MultiSzDropsEmpty | src/registry.rs:622-645 | empty strings in a stored list vanish on the way back |
| Registry.MultiSzExamples | src/registry.rs:716-739 | `[a, "", b]` reads back as `[a, b]` and the empty list reads back empty |
| Console.Code | src/console.rs:41-59 | every colour code fits in four bits |
| Console.FromU16 | src/console.rs:61-81 | the colour whose code is the low four bits; higher bits are ignored |
| Console.FromCode | src/console.rs:61-81 | reading a colour from its own code gives the colour |
| Console.CodeInjective | src/console.rs:41-59 | different colours have different codes |
| Console.TextAttribute.ToU16 | src/console.rs:105-107 | foreground in bits 0-3, background in bits 4-7 and nothing above |
| Console.DefaultColors | src/console.rs:101-103 | gray on black packs to 0x07 |
| Console.AttributeRoundTrip | src/console.rs:105-107 | both colours read back from the packed word |
| Console.WhiteOnDarkBlue | src/console.rs:435-438 | white on dark blue packs to 0x1F |
| Console.SetForeground | src/console.rs:231-236 | the new foreground with the current background |
| Console.SetBackground | src/console.rs:239-244 | the current foreground with the new background |
| Console.SetKeepsOther | src/console.rs:231-244 | setting one colour leaves the other as it was |
| Console.TrimCrLf | src/console.rs:210-218 | a prefix that drops exactly two units, and only when the input ends with CR LF |
| Console.ReadLineTyped | src/console.rs:195-220 | a line typed as `s` and Enter reads back as `s` |
| Console.ReadLine | src/console.rs:210-218 | `from_wide` of the units without a final CR LF; `ReadLineTyped` and `ReadLineUntrimmed` state its results |
| Console.ReadLineUntrimmed | src/console.rs:210-218 | without a final CR LF the units decode as they are |
| Console.Window.Width | src/console.rs:413-415 | `right - left + 1` modulo 2^16, which is the exact width when it fits in an i16 |
| Console.Window.Height | src/console.rs:418-420 | `bottom - top + 1` modulo 2^16, which is the exact height when it fits in an i16 |
| Console.WindowSizePositive | src/console.rs:413-420 | an ordered window of sensible size has the positive width and height of its columns and rows |
| Fs.FileAttributes.With | src/fs.rs:67-69 | every attribute of either part is set |
| Fs.WithAddsNothing | src/fs.rs:67-69 | an attribute bit that neither part has is not set in the combination |
| Fs.WithPredicates | src/fs.rs:47-69 | a combined word is a directory, read-only, hidden or system exactly when one part is |
| Fs.FileAttributes.IsDirectory | src/fs.rs:47-49 | the FILE_ATTRIBUTE_DIRECTORY bit is set; `WithPredicates` states it for a combination |
| Fs.FileAttributes.IsReadonly | src/fs.rs:52-54 | the FILE_ATTRIBUTE_READONLY bit is set; `WithPredicates` states it for a combination |
| Fs.FileAttributes.IsHidden | src/fs.rs:57-59 | the FILE_ATTRIBUTE_HIDDEN bit is set; `WithPredicates` states it for a combination |
| Fs.FileAttributes.IsSystem | src/fs.rs:62-64 | the FILE_ATTRIBUTE_SYSTEM bit is set; `WithPredicates` states it for a combination |
| Fs.ReadonlyHidden | src/fs.rs:413-419 | read-only with hidden is both and is not a directory |
| Fs.MoveOptions.Replace | src/fs.rs:153-156 | turns on replacement and changes nothing else |
| Fs.MoveOptions.AllowCopy | src/fs.rs:159-162 | turns on copying and changes nothing else |
| Fs.MoveOptions.WriteThrough | src/fs.rs:165-168 | turns on write-through and changes nothing else |
| Fs.MoveOptions.ToFlags | src/fs.rs:170-182 | each MOVEFILE bit is set exactly when its option is, and no other bit |
| Fs.DefaultMoveFlags | src/fs.rs:148-150 | the default options give no flags |
| Fs.OpenOptions.SetRead | src/fs.rs:244-247 | sets `read` and nothing else |
| Fs.OpenOptions.SetWrite | src/fs.rs:250-253 | sets `write` and nothing else |
| Fs.OpenOptions.SetCreate | src/fs.rs:256-259 | sets `create` and nothing else |
| Fs.OpenOptions.SetCreateNew | src/fs.rs:262-265 | sets `create_new` and nothing else |
| Fs.OpenOptions.SetTruncate | src/fs.rs:268-271 | sets `truncate` and nothing else |
| Fs.OpenOptions.SetShareRead | src/fs.rs:274-277 | sets read sharing and nothing else |
| Fs.OpenOptions.SetShareWrite | src/fs.rs:280-283 | sets write sharing and nothing else |
| Fs.OpenOptions.SetAttributes | src/fs.rs:286-289 | sets the attributes and nothing else |
| Fs.OpenOptions.GetAccess | src/fs.rs:322-331 | exactly FILE_GENERIC_READ, FILE_GENERIC_WRITE, their union or zero, by `read` and `write`; the whole read mask exactly for `read`, the whole write mask exactly for `write` |
| Fs.OpenOptions.GetShareMode | src/fs.rs:333-342 | each share bit exactly when requested, and no other bit |
| Fs.OpenOptions.CreationDisposition | src/fs.rs:344-354 | CREATE_NEW exactly for `create_new`; otherwise CREATE_ALWAYS, OPEN_ALWAYS or OPEN_EXISTING by `create` and `truncate` |
| Fs.NewOpenOptions | src/fs.rs:230-241 | nothing requested, read sharing only, normal attributes |
| Fs.DefaultOpen | src/fs.rs:222-241 | by default others may read but not write, no access is asked and the file must exist |
| Fs.ReadWriteCreate | src/fs.rs:244-259 | read, write and create give both access rights and OPEN_ALWAYS |
| Fs.TruncateNeedsCreate | src/fs.rs:344-354 | truncation without `create` does not change the disposition |
| Time.Duration.Plus | src/time.rs:321-328 | the sum has the total nanoseconds of both durations |
| Time.PerformanceCounter.Elapsed | src/time.rs:42-47 | the whole seconds are those the tick count spans at the counter's frequency |
| Time.ElapsedNanos | src/time.rs:42-47 | the duration is the elapsed nanoseconds, rounded down |
| Time.ElapsedWholeSeconds | src/time.rs:42-47 | no ticks give zero; a whole number of seconds' worth of ticks gives exactly that many seconds |
| Time.Stopwatch.StartNew | src/time.rs:289-298 | running from the given reading, nothing accumulated |
| Time.Stopwatch.New | src/time.rs:301-309 | stopped, nothing accumulated |
| Time.Stopwatch.Start | src/time.rs:312-318 | begins a run at the reading, or does nothing while running |
| Time.Stopwatch.Stop | src/time.rs:321-328 | adds the current run to the total, or does nothing while stopped |
| Time.Stopwatch.Reset | src/time.rs:331-334 | clears the total and stops |
| Time.Stopwatch.Restart | src/time.rs:337-340 | cleared and running from the reading |
| Time.Stopwatch.Elapsed | src/time.rs:343-350 | the total, plus the current run while running |
| Time.Stopwatch.IsRunning | src/time.rs:353-355 | whether a run is in progress; `Start`, `Stop`, `Reset` and `Restart` state what it becomes |
| Time.StopwatchTwoRuns | src/time.rs:402-414 | a stopped stopwatch reports the sum of the runs it measured, whatever the counter reads later |
| Time.StatusOf | src/time.rs:237-241 | 1 is standard time, 2 daylight time, anything else unknown |
| Time.UtcOffset | src/time.rs:269-271 | the size of the total bias in whole seconds, without its sign |
| Time.UtcOffsetMirror | src/time.rs:269-271 | zones east and west of UTC by the same amount report the same offset |
| Time.TotalBiasByPeriod | src/time.rs:261-266 | the base bias plus the daylight bias in daylight time, else the standard bias; an unknown status counts as standard |
| Time.TimeZone.TotalBias | src/time.rs:261-266 | the bias in force in minutes; `TotalBiasByPeriod` and `DaylightShift` state its value by period |
| Time.TimeZone.IsDaylightSaving | src/time.rs:274-276 | the status is daylight time; `TotalBiasByPeriod` ties it to the bias that applies |
| Time.DaylightShift | src/time.rs:261-266 | entering daylight time moves the bias by the difference of the two biases |
| Time.DayName | src/time.rs:158-170 | "Unknown" exactly above 6, else the day with that index from Sunday |
| Time.MonthName | src/time.rs:172-188 | "Unknown" exactly outside 1 to 12, else the month of that number |
| Time.NamesDistinct | src/time.rs:158-188 | different days, and different months, have different names |
| Time.FileTimeRoundTrip | src/time.rs:133-155 | splitting a file time into halves and joining them are inverse |
| Time.FileTimeParts | src/time.rs:145-148 | the low and high 32-bit halves; `FileTimeRoundTrip` proves joining them gives the file time back |
| Time.JoinFileTime | src/time.rs:140 | the high half shifted up by 32 bits, OR the low half; `FileTimeRoundTrip` proves splitting it gives the halves back |
| Xaml.Argb | src/xaml.rs:192-194 | the colour has exactly the given channels |
| Xaml.Rgb | src/xaml.rs:197-199 | fully opaque with the given channels |
| Xaml.FromArgbHex | src/xaml.rs:202-209 | the colour packs back to the hex value |
| Xaml.FromArgbHexPacked | src/xaml.rs:202-209 | packing a colour and unpacking it gives the colour |
| Xaml.FromRgbHex | src/xaml.rs:212-219 | the channels of `from_argb_hex` with alpha 255; the top byte is ignored |
| Xaml.RgbHexIsOpaqueArgbHex | src/xaml.rs:202-219 | a 24-bit value read as RGB is that value with alpha 0xFF read as ARGB |
| Xaml.RgbHexExample | src/xaml.rs:472-482 | 0xFF8040 is rgb(255, 128, 64) |
| SysInfo.FromId | src/sysinfo.rs:27-35 | codes 0, 9, 5 and 12 are x86, x64, ARM and ARM64, and any other code is kept as unknown |
| SysInfo.FromIdInjective | src/sysinfo.rs:27-35 | different codes give different architectures |
| SysInfo.OsVersion.DisplayString | src/sysinfo.rs:141-158 | the release name followed by the build number |
| SysInfo.OsVersion.Name | src/sysinfo.rs:141-158 | every release name starts with "Windows " |
| SysInfo.Windows11Is10 | src/sysinfo.rs:131-138 | Windows 11 also counts as Windows 10 or later |
| SysInfo.OsVersion.IsWindows10OrLater | src/sysinfo.rs:131-133 | major version 10 or more; `Windows11Is10` and `DisplayNamesRelease` relate it to Windows 11 and the display string |
| SysInfo.OsVersion.IsWindows11OrLater | src/sysinfo.rs:136-138 | major version 10 or more with a build from 22000 on; `DisplayNamesRelease` proves the display string names Windows 11 exactly then |
| SysInfo.DisplayNamesRelease | src/sysinfo.rs:136-147 | the display string names Windows 11 exactly for the versions that count as 11, and Windows 10 exactly for the other versions from major 10 on |
| SysInfo.DisplayOlder | src/sysinfo.rs:148-157 | major 6 is named by its minor version; any other version is shown by its numbers |
| Ints.Decimal | src/sysinfo.rs:141-158 | the decimal digits of a number, as `format!` prints them |
| Ints.DecimalRoundTrip | src/sysinfo.rs:141-158 | the digits read back as the number |
| Ints.WrapI16 | src/console.rs:413-420 | the i16 congruent to a number modulo 2^16 |

## Left out

- **Operating-system calls.** All calls into the Win32 API are left out: the registry (`RegOpenKeyExW`, `RegQueryValueExW`, `RegSetValueExW` and enumeration), `CreateProcessW` and process handles, console I/O, `CreateFileW`, `MoveFileExW`, `QueryPerformanceCounter`, `GetVersionExW`, `GetTimeZoneInformation` and `SystemTimeToFileTime`. What the model keeps is the data these calls are given or return, as parameters.
- **Paths.** `path_to_wide`, `WideString::from_path` and `WideStringPool::get_path` go through `OsStr::encode_wide`, whose Windows-specific input cannot be expressed here.
- **Memory.**
  - Vector growth is left out. A builder's capacity is abstract: pushing may only raise it.
  - Pooled vectors are modelled by their capacity alone, since `put` clears them.
- **Pointers.** `as_ptr`, `as_pcwstr` and pointer lifetimes become the slice they point to. `from_wide_ptr`'s memory is passed in as the units from the pointer on.
- **WideStrings.WideString.ToStringLossy: the placeholder.** The placeholder a failed decode returns is the three characters written in the source, U+00D4 U+00F8 U+03A9. Those are the UTF-8 bytes of U+FFFD, the replacement character, read in the Mac Roman code page. The model keeps them as written.
- **Process.Parse: a partner, not a port.** It reads arguments by the `CommandLineToArgvW` rules that `quote_arg` targets. It applies the argument rules to the program name as well, and it does not model the `""` doubling inside quotes, which `quote_arg` never produces.
- **Floating point.** `Thickness`, `CornerRadius`, the Direct2D and window geometry types, and other floating-point code are left out.
- **Time.PerformanceCounter.Elapsed** requires `end >= start` and computes on unbounded integers. Not modelled:
  - a counter that runs backwards;
  - the `i64` subtraction overflow;
  - the `i64` product `(delta % frequency) * 1_000_000_000`, which overflows once the frequency reaches 9_223_372_038 (a debug panic, or a wrong and possibly negative nanosecond count after a release wrap);
  - the `Duration` overflow panic.
- **Time.UtcOffset** computes on unbounded integers. The `i32` overflow of `abs()` on `i32::MIN` and of `* 60` is not modelled.
- **Time.TimeZone.TotalBias** adds the biases without `i32` wrap-around. Real biases are a few hundred minutes.
- **Time: other items.**
  - Time-zone names (`from_utf16_lossy` of a fixed array) are left out.
  - The `Display` of `SystemTime` and its conversions to and from `SYSTEMTIME` are left out.
  - The errors `Stopwatch` propagates from an unreadable counter are left out.
- **Console.Window.Width and Console.Window.Height** wrap as a release build does. A debug build panics on overflow instead.
- **Other files of the crate** are thin wrappers whose logic is a single system call: `error.rs`, `handle.rs`, window, thread and service wrappers, and the rest of `xaml.rs`. They are not part of this model.
- `from_wide_buffer` and the `From` conversions into `WideString` are not part of this model. The conversions only call `WideString::new` or `from_vec`.

## Findings

| source | as written | input that shows it | evidently intended | confidence | as-written member | corrected member |
|---|---|---|---|---|---|---|
| src/string.rs:286-297 | `WideString::with_capacity` puts the heap form on `Vec::with_capacity(capacity)`, which has no terminating zero, while the inline form holds `[0]` | `with_capacity(24)`: `as_slice()` is empty, and `as_ptr()` is handed to Win32 as a string without a terminator | both forms hold the empty, terminated string `[0]` | not executed | WideStrings.WithCapacityHeapUnterminated | WideStrings.WithCapacityTerminated |
