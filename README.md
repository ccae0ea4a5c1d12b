# pystruct format-string codec, modelled in Dafny

pystruct is a Go port of Python's `struct` module. A format string is an
optional order character followed by `(digits)(code)` pairs. The engine in
`pystruct.go` scans that string to do four things:

- compute a byte size (`CalcSize`);
- pack argument values into bytes (`Pack`, `PackInto`);
- unpack bytes back into values with a byte cursor (`Unpack`, `UnpackFrom`).

The same operations are also bound to a compiled `Struct` object.

This project models that engine and proves what it promises.

## Modules

**`Types`** (types.dfy) holds the shared definitions:

- the value, order and error datatypes;
- the `Tables` parameter;
- `AddNum`, the repeat-count accumulator, modelled exactly as written.

**`Tables`** stands for the tables and helpers the engine uses but does not define:

- `CFormatMap` (the set of codes);
- `alignmentMap` (the width of each code);
- `OrderMap` and `getOrder` (the set of order characters);
- the `String` code;
- `buildValue` and `buildString`;
- `parseValue` and `parseString`.

They are uninterpreted. `getOrder(c)` is taken to be non-nil exactly when `c` is a key of `OrderMap`.

**`Format`** (format.dfy) covers the scan and `CalcSize`:

- `Items`, the item grammar of a format body;
- `SizeOf` and `SizeSpec`, the size of a list of items and of a format;
- `CalcChars`, the character loop of CalcSize as a function;
- `CalcSize`, the imperative method, proved equal to `SizeSpec`; its character loop is the method `CalcLoop`, proved equal to `CalcChars`.

**`Packer`** and **`PackProperties`** (pack.dfy) cover `Pack` and `PackInto`:

- `PackLoop` is Pack's character loop, called by `Pack` after the CalcSize check. Its invariant is the function `PackChars`, which mirrors the loop. The repeat loop of one code is the method `PackRepeated`, specified by the function `Repeat`.
- `PackItems` is the same walk over parsed items.
- `EncodeItems` is the plain encoding of the items from the arguments they consume.
- `PackInto` works in place on an `array<byte>`. It grows the buffer into a fresh array when the bytes do not fit (`Grown`) and then copies the bytes in (`WriteAt`). Its result is specified with `Overlaid`.

**`Unpacker`** and **`UnpackProperties`** (unpack.dfy) cover the unpacking side:

- `Reader` models the `bytes.Reader` cursor as a class.
- `readValue`, `checkFormatAndBufSize`, `Unpack` and `UnpackFrom` are methods. Unpack's character loop is the method `UnpackLoop`; the loops of one item are `ReadText` and `ReadScalars`.
- `UnpackChars`, `TextLoop` and `ScalarLoop` mirror the loops.
- `DecodeFrom` is the decoding of the items, independent of the loop.
- `RoundTrip` proves that Unpack gives back the arguments from the bytes Pack built, for formats without string items, when each scalar encoding parses back (`BuildParseInverse`).

**`Compiled`** (compiled.dfy) is the `Struct` wrapper.

## Where the model follows the code

**Repeat counts are not base 10.**

- The first digit of a run is added as it is, and every later digit is added times ten. So `"12"` counts 1 + 20 = 21.
- A `'0'` is never accumulated: `addNum` returns 0 for it, so it is then looked up as a type code.
- The model keeps this arithmetic, since a base-10 reading is not what the code computes.

**Pack's argument checks.**

- `Pack` checks "enough arguments" before every character of the body, digits included.
- As a result, a body that ends in digits never packs cleanly. With exactly the arguments its items consume, Pack fails with the index error and the items' bytes. With more, it fails with the extra-items error (`TrailingDigitsNeverPack`).
- An index error returns the partial buffer: the encoding of the items before the check that failed (`PackIndexErrorExactly`).
- The repeat loop of a non-string item reads `intf[index]` without a bounds check. That run is a Go panic. `Pack` and `PackInto` therefore carry a precondition that the run does not panic.
- `PackWithEnoughArgumentsNeverPanics` shows the precondition holds whenever the arguments suffice. `CountTwoWithOneArgumentPanics` exhibits a run where it fails.

**Unpack needs the exact size.**

- `Unpack` insists that the buffer length equal the format's size.
- `UnpackFrom` therefore needs the rest of the buffer from the offset to be exactly that size. The doc comment above it says "at least".

**`Struct.Pack` and `Struct.PackInto` do not pass their arguments on.** They pack the format with no arguments.

## Model

| member | source | states |
|---|---|---|
| Types.FormatSplits | pystruct.go:55-57 | a format is its order character, when its first character is one, followed by the body that the loops scan; only index 0 is stripped |
| Types.OrderOf | pystruct.go:94-100 | the order is the one named by the first character exactly when that character is an order character, and native otherwise; Unpack selects it the same way (lines 196-201) |
| Types.AddNum | pystruct.go:35-45 | the amount added to the pending count is positive exactly for the digits 1-9; '0' and non-digits add nothing |
| Format.AccumulatedIsCount | pystruct.go:62-65 | for non-zero digits d1..dk the accumulated count is d1 + 10*(d2+...+dk) |
| Format.TwelveCountsTwentyOne | pystruct.go:35-45 | the run "12" counts 21, not 12 |
| Format.CountOfAccumulated | pystruct.go:62-69 | the count used for an item is 1 when no digits precede its code, else the accumulated value, which is 0 only for an empty run |
| Format.Items | pystruct.go:59-77 | parsing a body gives items with a positive count and a known code, or a bad-char error |
| Format.CalcSize | pystruct.go:51-79 | the method returns the sum of count*width over the items of the body, or the parse error |
| Format.CalcLoop | pystruct.go:59-78 | the character loop of CalcSize returns what the scan CalcChars gives for the body: the sum of count*width per code, or the first bad character |
| Format.CalcCharsByItems | pystruct.go:59-77 | the loop of CalcSize, started with a pending digit run r, computes the size of the items of r + s |
| Format.SpanIsProduct | pystruct.go:75 | the bytes of k values of width w are k*w |
| Format.ItemsFailAtFirstBadChar | pystruct.go:71-73 | parsing fails exactly when some character is neither a count digit nor a code, and the error names the first such character |
| Format.CalcSizeFailsAtFirstBadChar | pystruct.go:55-73 | CalcSize fails exactly when the body holds a bad character, and names the first one |
| Format.PrefixOnlyAtStart | pystruct.go:55-57 | an order character after index 0 that is not a code makes CalcSize fail: the prefix is stripped once, at index 0 only |
| Format.TrailingDigitsAddNothing | pystruct.go:59-78 | digits at the end of a body, with no code after them, leave the items (and so the size) unchanged |
| Format.ItemsOfConcat | pystruct.go:59-77 | two bodies side by side parse to the items of each in order, when the first does not end in digits |
| Format.SizeOfConcat | pystruct.go:75 | the size of two item lists together is the sum of their sizes |
| Format.SizeIsAdditive | pystruct.go:51-79 | the size of f1 + f2 is the sum of the sizes, when f2 has no order character and f1's body does not end in digits |
| Packer.EncodeItems | pystruct.go:121-145 | an encoding exists only when the arguments are at least as many as the items consume |
| Packer.Pack | pystruct.go:84-153 | the method returns exactly the buffer and error of the walk over the format's items, including the CalcSize error, the partial buffer on an index error and the full buffer on extra items |
| Packer.PackLoop | pystruct.go:101-152 | the character loop of Pack, with the extra-items check after it, returns what the scan PackChars gives: the index error before any character once the arguments are used up, the bad char, NotBytes, NotA, extra items, or the full buffer |
| Packer.PackRepeated | pystruct.go:136-145 | the repeat loop of a non-string code appends the encodings of num arguments from index on and moves index past them, or stops at the first one buildValue refuses |
| Packer.PackCharsByItems | pystruct.go:101-148 | Pack's loop, started with a pending digit run r, does what the walk over the items of r + s does |
| Packer.PackCharsIsReference | pystruct.go:86-119 | once CalcSize has accepted the format, Pack's loop equals the item walk and never returns its bad-char error |
| Packer.PackCharsNeverBadChar | pystruct.go:117-119 | Pack's own bad-char branch is unreachable after CalcSize succeeds |
| Packer.PackItemsNeverBadChar | pystruct.go:117-119 | the item walk never produces a bad-char error |
| Packer.Overlaid | pystruct.go:170-179 | the written buffer has length max(len(buffer), offset+len(part)), holds part at [offset, offset+len(part)), keeps every other old byte, and is zero in the grown part that was not written |
| Packer.Grown | pystruct.go:170-176 | the expanded buffer is a fresh array holding the old bytes followed by zeros up to the required length |
| Packer.WriteAt | pystruct.go:178 | the copy into buffer[offset:] replaces exactly the bytes at offset .. offset+len(part) and keeps the rest |
| Packer.PackInto | pystruct.go:159-180 | a Pack error (extra items included) gives a null buffer and that error before the offset is looked at; a negative offset gives its error; otherwise the result is the overlaid buffer, written in place when it fits and into a fresh array, leaving the old one untouched, when it does not |
| PackProperties.RepeatEncodes | pystruct.go:136-145 | the repeat loop encodes k values exactly when k arguments remain and buildValue accepts each, and panics exactly when fewer remain and all of those are accepted |
| PackProperties.PackItemsCompletes | pystruct.go:101-152 | the walk reaches its end exactly when the remaining arguments encode every item (with one to spare after trailing digits); it then returns the grown buffer and the count of leftover arguments |
| PackProperties.PackSucceeds | pystruct.go:84-153 | Pack succeeds exactly when the format parses, the arguments are exactly as many as the items consume, each is accepted, and the body does not end in digits; the bytes are the items' encodings in order |
| PackProperties.PackReportsExtraItems | pystruct.go:149-151 | "extra items" is reported exactly when every consumed argument is accepted and some are left over; the count is len(intf) minus those consumed, and the buffer is the full encoding |
| PackProperties.PackItemsIndexError | pystruct.go:101-104 | the walk reports the index error only with fewer arguments than the items need, or exactly as many with trailing digits |
| PackProperties.PackIndexErrorMeansArgumentsRanOut | pystruct.go:101-104 | Pack's index error means the arguments ran out: fewer than the items consume, or exactly as many when the body ends in digits |
| PackProperties.PackItemsStepEncoded | pystruct.go:121-145 | a first item that encodes from its arguments moves the walk past them with its bytes appended |
| PackProperties.RanOutAtStep | pystruct.go:101-145 | running out after k+1 items is the first item encoding from its own arguments followed by the rest running out after k |
| PackProperties.PackItemsRunOut | pystruct.go:101-104 | when the items before some point use up exactly the arguments left and an item or trailing digit follows, the walk returns the index error with the buffer grown by those items' bytes |
| PackProperties.PackItemsIndexErrorAt | pystruct.go:101-104 | an index error from the walk always arises that way: after some prefix of the items that uses up the arguments, with that prefix's bytes |
| PackProperties.PackIndexErrorExactly | pystruct.go:101-104 | Pack returns the index error with bytes b exactly when the format parses and some prefix of its items, followed by an item or trailing digits, consumes all the arguments and encodes to b |
| PackProperties.TrailingDigitsNeverPack | pystruct.go:101-104 | a body ending in digits gives, with exactly its items' arguments, the index error with their bytes, and with more, the extra-items error with its count |
| PackProperties.EnoughArgumentsNeverPanic | pystruct.go:136-145 | the walk cannot reach the unchecked read when at least the needed arguments are given |
| PackProperties.PackWithEnoughArgumentsNeverPanics | pystruct.go:136-145 | Pack does not panic when it is given at least as many arguments as the format consumes |
| PackProperties.CountTwoWithOneArgumentPanics | pystruct.go:136-140 | a count of 2 given one acceptable argument reaches the unchecked intf[index] instead of the index error |
| PackProperties.PackWithoutArguments | pystruct.go:101-104 | with no arguments, Pack returns no bytes and NoArgumentsError: the CalcSize error, success for a bare order character, and otherwise the index error |
| PackProperties.OverlaidAtEndAppends | pystruct.go:169-179 | writing at offset len(buffer) appends the bytes |
| Unpacker.Reader.constructor | pystruct.go:194 | the reader starts at position 0 of the buffer |
| Unpacker.Reader.ReadByte | pystruct.go:14-17 | the next byte and an advanced cursor, or EOF at the end of the data |
| Unpacker.ReadValue | pystruct.go:10-21 | readValue returns the next width(c) bytes and advances by that much, or, when fewer remain, the EOF error with the cursor at the end |
| Unpacker.CheckFormatAndBufSize | pystruct.go:23-33 | the CalcSize error first; otherwise no error exactly when the size equals the expected one, and else the mismatch naming the format's size |
| Unpacker.TextLoopReads | pystruct.go:219-231 | with the bytes there, the string loop reads count*width bytes and yields the concatenated parseString text |
| Unpacker.ScalarLoopReads | pystruct.go:233-243 | with the bytes there, a scalar loop reads count*width bytes and appends exactly the chunks that parse |
| Unpacker.UnpackItemReads | pystruct.go:219-243 | with the bytes there, one item reads its bytes and appends its decoded values; a string item adds exactly one value |
| Unpacker.UnpackCharsByItems | pystruct.go:203-245 | Unpack's loop, started with a pending digit run r, does what the item walk over r + s does |
| Unpacker.UnpackItemsReads | pystruct.go:203-245 | with the bytes there, the item walk decodes every item and moves the cursor past exactly their bytes |
| Unpacker.UnpackCharsIsReference | pystruct.go:188-245 | after the size check, Unpack's loop yields the decoded items, reads the whole buffer, and never reaches readValue's EOF branch or its own bad-char branch |
| Unpacker.ReadText | pystruct.go:219-231 | the string item's loop does what TextLoop says |
| Unpacker.ReadScalars | pystruct.go:233-243 | a scalar item's loop does what ScalarLoop says |
| Unpacker.UnpackLoop | pystruct.go:203-246 | the character loop of Unpack returns what the scan UnpackChars gives from the reader's position: the bad char, readValue's EOF, or the values collected |
| Unpacker.Unpack | pystruct.go:186-248 | the method returns the CalcSize error, the size mismatch, or the values of the items decoded in order |
| Unpacker.UnpackFrom | pystruct.go:332-337 | the out-of-range error when offset >= len(buffer), else Unpack of buffer[offset:] |
| UnpackProperties.UnpackRejectsWrongSize | pystruct.go:188-190 | Unpack reports the size mismatch exactly when the format is valid and its size differs from the buffer's length, naming the format's size |
| UnpackProperties.UnpackFailsOnlyInTheSizeCheck | pystruct.go:186-248 | Unpack succeeds exactly when CalcSize gives the buffer's length; its errors are only the bad char and the size mismatch |
| UnpackProperties.ScalarsCount | pystruct.go:233-243 | a scalar item yields at most count values, and exactly count when every chunk parses |
| UnpackProperties.DecodedCount | pystruct.go:219-243 | Unpack yields at most as many values as Pack consumes arguments for the same format, with equality exactly when every scalar chunk parses |
| UnpackProperties.UnpackFromNeedsExactRemainder | pystruct.go:332-337 | UnpackFrom succeeds only when the rest of the buffer from the offset is exactly the format's size |
| UnpackProperties.EncodeAllLength | pystruct.go:136-145 | when buildValue gives width bytes per value, k values encode to k*width bytes |
| UnpackProperties.EncodeItemsLength | pystruct.go:121-145 | under the same assumption, items without a string item encode to SizeOf bytes |
| UnpackProperties.PackedLengthIsCalcSize | pystruct.go:84-153 | under the same assumption, a successful Pack of a format without string items gives exactly CalcSize bytes |
| UnpackProperties.ScalarsRoundTrip | pystruct.go:233-243 | when each scalar encoding is width bytes and parses back, k values read back from where their encoding sits |
| UnpackProperties.ItemsRoundTrip | pystruct.go:203-245 | under the same assumption, items without a string item read back from their encoding exactly the arguments they were encoded from |
| UnpackProperties.RoundTrip | pystruct.go:186-248 | under the same assumption, Unpack of the bytes a successful Pack builds for a format without string items gives back the arguments |
| Compiled.Struct.CalcSize | pystruct.go:345-347 | the size of the bound format |
| Compiled.Struct.Pack | pystruct.go:350-352 | the arguments are dropped: the bytes are always empty and the error is that of Pack with no arguments |
| Compiled.Struct.PackInto | pystruct.go:355-357 | the arguments are dropped: an error of Pack with no arguments, the negative-offset error, or the buffer with its contents kept, grown with zeros to offset when shorter |
| Compiled.Struct.Unpack | pystruct.go:360-362 | Unpack of the bound format |
| Compiled.Struct.UnpackFrom | pystruct.go:365-367 | UnpackFrom of the bound format |

## Left out

- IterUnpack and Struct.IterUnpack: their point is a goroutine feeding channels. Their decode loop is Unpack's, with two differences. The bad-char check comes before the count default. Strings are built with `string(rawValue)` instead of parseString.
- buildValue, buildString, parseValue and parseString: their byte layouts, floating point and endianness live outside pystruct.go. They are uninterpreted fields of `Tables`.
- Round trip for formats with a string item: Pack writes buildString of the whole text whatever the count, while Unpack reads count chunks of the width through parseString and joins them. Whether the two agree depends on the string layout of those encoders, which is not part of this model. `RoundTrip` covers every format without a string item, assuming each scalar encoding is width bytes and parses back.
- PackItemsIndexError: states only that an index error means the arguments ran out; the converse, with the partial buffer, is `PackItemsRunOut`, and the exact form is `PackItemsIndexErrorAt`.
- PackIndexErrorMeansArgumentsRanOut: states only the count condition of the index error; the if-and-only-if with the partial buffer is `PackIndexErrorExactly`.
- getNativeOrder: a platform query. It is the constant order `Native`.
- Go panics become preconditions:
  - `format[0]` on an empty format;
  - the unchecked `intf[index]` in Pack's repeat loop;
  - the slice `buffer[offset:]` with a negative offset in UnpackFrom.
- Go's `int`: it is a machine word; counts, sizes and offsets here are unbounded.
- The error strings are one constructor of `Error` each. CFormatStringMap, used only to name the code in "required argument is not an %s", is replaced by the code itself.
- `range format` iterates runes. The format here is a sequence of characters, so multi-byte UTF-8 decoding is not modelled.
- nil and empty slices are not distinguished. Pack's nil buffer on an error, and Unpack's nil value list, are both the empty sequence or the error.
- Compiled.Struct.PackInto: states only that the buffer's contents are kept, not that the array is unchanged as an object. In the in-place case the array is written with nothing.
