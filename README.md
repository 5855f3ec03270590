# A verified model of three pieces of the ebpf Go library

This project models, in Dafny, three parts of the `ebpf` Go library and
proves properties of them:

- **bpf2go command-line helpers** (`bpf2go_tools.dfy`, module `Bpf2goTools`).
  - `splitCFlagsFromArgs` splits an argument list at its first `"--"`.
  - `splitArguments` splits a flag string into shell-like words. It handles
    quotes, backslash escapes and the two errors: a missing quote and an
    unfinished escape.
  - `toUpperFirst` upper-cases the first rune of a string.
- **The BTF type Builder** (`btf_builder.dfy`, module `BtfBuilder`).
  - BTF is the kernel's type format. Go `Type` objects form a graph. The
    model keeps them in an arena: a map from identity to type, where a type
    refers to other types by identity.
  - `Builder` is a class with the added types (a sequence) and their IDs (a
    map). `Builder.Add` registers one type. `NewBuilder` adds a list in
    order.
  - `Builder.Marshal` writes the type table (records that refer to each
    other by type ID) without changing the Builder. With `ReplaceEnum64`,
    each 64-bit enum becomes a union. All members of that union point to a
    placeholder Int, which gets an ID after the added types.
  - Loading the table back gives the types again, with Void at ID 0.
- **The sysenc codec** (`sysenc.dfy`, module `Sysenc`).
  - These are the functions that turn Go values into the bytes handed to
    the kernel, and back. A Go type is a `Layout`: fixed-size integers,
    arrays, slices, pointers, and structs whose fields are exported,
    unexported or blank (`_`).
  - A value is its layout plus the bytes of its memory. Memory uses Go's
    amd64 sizes and alignment, so it may contain padding.
  - `binary.Size`, `binary.Write` and `binary.Read` work on the packed
    encoding: the integer fields in declaration order, with no padding, and
    blank fields written as zeros.
  - Both the memory image and the packed encoding come from one flattening
    of the layout into leaves (offset, size, blank).
  - `unsafeBackingMemory` (`DirectMemory`) hands out the value's own memory
    when that memory is already the packed encoding.
  - `Marshal` and `Unmarshal` use that memory, or fall back to
    `binary.Write` and `binary.Read`.
  - `Unmarshal`, `binary.Read` and the tests' fill loop (`randomiseValue`)
    are methods that write into an `array`.

The main results:

- `Bpf2goTools.SplitArguments` (a loop) computes `Words`, a left fold of one
  step function over the runes of the trimmed input. On input without
  quotes or backslashes this fold is exactly "split at spaces, drop empty
  words".
- Builder IDs are stable and consecutive. `NewBuilder` reproduces its list.
  Marshal, then load, gives back every added type at its ID.
- The direct memory, when it exists, is the `binary.Write` encoding.
  `Marshal(v, binary.Size(v))` returns that encoding. Both results assume
  that the blank fields hold zeros (`BlanksClear`).
- For a destination of fixed-size data and a buffer of exactly its
  `binary.Size` bytes, `Unmarshal` reports what `binary.Read` reports. The
  two leave memories with the same `binary.Write` image (`UnmarshalAgreesWithRead`).

## Model

| member | source | states |
|---|---|---|
| Bpf2goTools.SplitCFlagsFromArgs | cmd/bpf2go/tools.go:12-20 | without "--" everything is an argument and there are no flags; otherwise args + ["--"] + cflags is the input, split at the first "--" |
| Bpf2goTools.TrimSpace | cmd/bpf2go/tools.go:30 | the input is white space, the result, white space (Go's unicode.IsSpace set); the result neither starts nor ends with white space |
| Bpf2goTools.SplitArguments | cmd/bpf2go/tools.go:22-79 | the loop with its four variables (result, builder, escaped, delim) and the checks after it returns Words(input): the step fold over the trimmed runes |
| Bpf2goTools.RunFromAppend | cmd/bpf2go/tools.go:30-63 | the loop over a concatenation runs over each part in turn |
| Bpf2goTools.EscapeIsLiteral | cmd/bpf2go/tools.go:31-39 | a backslash makes the next rune, whatever it is, a literal word character; the backslash is dropped |
| Bpf2goTools.PlainQuoteBody | cmd/bpf2go/tools.go:31-39 | without backslashes, a quote body is any run without the quote, and it stands for itself |
| Bpf2goTools.InsideQuote | cmd/bpf2go/tools.go:31-61 | inside a quote, a quote body (every backslash escaping one rune, the quote only escaped) is appended to the word as its text with the escapes resolved; spaces and the other quote are literal |
| Bpf2goTools.QuotedWord | cmd/bpf2go/tools.go:41-58 | a quoted run, escapes included, ends the word at the matching quote, and an empty quoted word is still emitted |
| Bpf2goTools.UnclosedQuote | cmd/bpf2go/tools.go:65-71 | a quote still open at the end, after any quote body and possibly a dangling backslash, is the "missing quote" error, checked before the unfinished escape |
| Bpf2goTools.TrailingBackslash | cmd/bpf2go/tools.go:69-71 | a backslash at the end is the "unfinished escape" error |
| Bpf2goTools.SpaceRun | cmd/bpf2go/tools.go:41-50 | outside quotes, a run of spaces emits the pending word if there is one and never an empty word, whatever the rest of the input holds |
| Bpf2goTools.NoEmptyUnquotedWords | cmd/bpf2go/tools.go:41-49 | without quotes, runs of spaces never produce an empty word |
| Bpf2goTools.PlainIsFields | cmd/bpf2go/tools.go:22-79 | on input without quotes and backslashes the tokeniser equals an independent "split at spaces, drop empty pieces" definition |
| Bpf2goTools.ToUpperFirst | cmd/bpf2go/tools.go:81-84 | the first rune is upper-cased (ASCII) and the rest kept; an empty string gives the replacement rune that DecodeRuneInString reports |
| BtfBuilder.AddKeepsIds | btf/marshal_test.go:43-71 | Add keeps the state well formed and never renumbers; it returns 0 exactly for Void, otherwise the position of the type plus one |
| BtfBuilder.AddIdempotent | btf/marshal_test.go:56-66 | adding a type a second time returns the same ID and changes nothing |
| BtfBuilder.AddFresh | btf/marshal_test.go:60-62 | a new non-void type gets the next ID, above all earlier ones, and is the only new entry |
| BtfBuilder.FirstTypeGetsOne | btf/marshal_test.go:51-54 | the first non-void type added to an empty Builder gets ID 1 |
| BtfBuilder.BuilderAddScenario | btf/marshal_test.go:43-71 | the test's Add sequence returns IDs 1, 1, 2, 2, 3 |
| BtfBuilder.AddAllFresh | btf/marshal_test.go:23-30 | adding distinct new types appends them in order with consecutive IDs |
| BtfBuilder.NewBuilderReproducesList | btf/marshal_test.go:23-30 | NewBuilder on [Void, t1, ..] gives element k the ID k |
| BtfBuilder.Builder.constructor | btf/marshal_test.go:51 | the zero Builder is empty and well formed |
| BtfBuilder.Builder.FromTypes | btf/marshal_test.go:30 | NewBuilder: the state is the list added in order |
| BtfBuilder.Builder.Add | btf/marshal_test.go:52-70 | the new state and the returned ID are AddType's |
| BtfBuilder.Builder.Marshal | btf/marshal_test.go:33-36 | the loop writes Encode of the state: records in ID order, then placeholders; the Builder is not written |
| BtfBuilder.BuildAndMarshal | btf/marshal_test.go:30-36 | the state before and after Marshal are equal |
| BtfBuilder.Load | btf/marshal_test.go:38-39 | a table loads exactly when every record is valid and refers inside the table; Void is prepended; otherwise the ID of the first bad record is reported, as an unknown kind exactly when that record is Void |
| BtfBuilder.MarshalLoadRoundTrip | btf/marshal_test.go:34-40 | for a closed Builder, the marshaled table always loads; every added type comes back at its ID, a replaced enum as its union |
| BtfBuilder.BuilderMarshalScenario | btf/marshal_test.go:16-41 | the test's list [Void, Int, Pointer, Typedef] loads back as exactly that list |
| BtfBuilder.Placeholder | btf/marshal_test.go:144 | the placeholder is an Int of the enum's size and signedness |
| BtfBuilder.UnionFor | btf/marshal_test.go:145-152 | the union keeps the enum's name and size, with one member per value, all pointing to the placeholder |
| BtfBuilder.PendingAt | btf/marshal_test.go:129-135 | each replaced enum owns the placeholder after those of the types before it |
| BtfBuilder.PendingSource | btf/marshal_test.go:129-135 | every placeholder was allocated by a replaced enum |
| BtfBuilder.Enum64Records | btf/marshal_test.go:144-152 | the test's enum becomes the union {A, B} over the Int "enum64_placeholder" |
| BtfBuilder.MarshalEnum64Scenario | btf/marshal_test.go:118-153 | the test's 8-byte signed enum loads as a union whose two members point to the placeholder with ID 2 |
| Sysenc.AlignUpBounds | internal/sysenc/marshal_test.go:21-24 | size helper for Go's struct layout (the trailing padding of `struc`): rounding up to an alignment adds less than one alignment unit |
| Sysenc.LeavesOf | internal/sysenc/marshal_test.go:21-28 | a layout's leaves lie inside its memory and, when it has a packed size, add up to it |
| Sysenc.PackedAtMostMem | internal/sysenc/marshal_test.go:226-243 | the packed size never exceeds the size in memory |
| Sysenc.NoPaddingContiguous | internal/sysenc/marshal_test.go:145-184 | equal packed and memory sizes mean the leaves cover the memory without gaps |
| Sysenc.DecodeEncode | internal/sysenc/marshal_test.go:101-116 | encoding what was decoded gives the bytes back, with blank fields zeroed |
| Sysenc.UnpackPack | internal/sysenc/marshal_test.go:101-116 | the same round trip for a whole value |
| Sysenc.NoPaddingPacked | internal/sysenc/marshal_test.go:145-184 | a layout without padding encodes as its own memory with blank fields zeroed, and as exactly its memory when those are zero |
| Sysenc.BinarySize | internal/sysenc/marshal_test.go:68 | binary.Size: the packed size of the data, or -1 when there is none, a nil pointer included; its properties are stated by BinarySizeOfData |
| Sysenc.BinaryWrite | internal/sysenc/marshal_test.go:63 | binary.Write: the packed encoding of the data, or none; its properties are stated by BinarySizeOfData, UnpackPack and NoPaddingPacked |
| Sysenc.DirectMemory | internal/sysenc/marshal_test.go:186-189 | unsafeBackingMemory: the value's memory for a non-nil pointer or slice without padding or unexported fields; characterized by DirectMemoryExactly and DirectMemoryIsEncoding |
| Sysenc.Marshal | internal/sysenc/marshal_test.go:68-75 | Marshal(data, size): the direct memory when it has the requested size, otherwise binary.Write's bytes, which must have that size; its properties are stated by MarshalIsEncoding, MarshalSound and DirectRoundTrip |
| Sysenc.CanUnmarshalInto | internal/sysenc/marshal_test.go:303-306 | canUnmarshalInto: the value is a slice or a pointer; CanUnmarshalIntoReads states what binary.Read does with either answer |
| Sysenc.BinarySizeOfData | internal/sysenc/marshal_test.go:62-69 | binary.Size is the packed size of the data, and -1 for a nil pointer or nil interface; binary.Write succeeds exactly when that is defined and writes that many bytes |
| Sysenc.DirectMemoryExactly | internal/sysenc/marshal_test.go:145-249 | direct memory exists exactly for non-nil pointers and non-nil slices without padding or unexported fields, and it is the value's memory |
| Sysenc.DirectMemoryIsEncoding | internal/sysenc/marshal_test.go:186-190 | the direct memory equals binary.Write's output |
| Sysenc.MarshalIsEncoding | internal/sysenc/marshal_test.go:58-76 | Marshal(v, binary.Size(v)) succeeds with binary.Write's bytes whenever binary.Write succeeds |
| Sysenc.MarshalSound | internal/sysenc/marshal_test.go:58-76 | a nil value fails; any success has the requested size and is the packed encoding, or is empty on a request for zero bytes |
| Sysenc.CanUnmarshalIntoReads | internal/sysenc/marshal_test.go:303-306 | only slices and pointers can be read into; for those, binary.Read refuses a buffer shorter than binary.Size, fails on data whose decoding has to set a named unexported field (an unexported field holding a non-blank integer, at any depth), and otherwise succeeds |
| Sysenc.WritesSized | internal/sysenc/marshal_test.go:26-28 | data whose decoding sets some integer (a non-blank leaf, blank fields and empty arrays skipped) has bytes to decode |
| Sysenc.BlankInsideUnexported | internal/sysenc/marshal_test.go:218-219 | `struct{ a uint64 }` sets an unexported field when decoded; an unexported field holding only a blank field is never set |
| Sysenc.SetsUnexportedBounds | internal/sysenc/marshal_test.go:218-219 | data whose decoding sets an unexported field (one that holds a non-blank integer) has an unexported field, sets some integer, and has bytes to decode |
| Sysenc.ReadIsPacked | internal/sysenc/marshal_test.go:297 | what a successful binary.Read leaves, binary.Write gives back: the bytes read, blank fields zeroed |
| Sysenc.UnmarshalRoundTrip | internal/sysenc/marshal_test.go:101-116 | after a successful Unmarshal of a non-empty buffer, the buffer had binary.Size bytes and the value encodes back to it, blank fields zeroed |
| Sysenc.UnmarshalErrors | internal/sysenc/marshal_test.go:110-113 | without a matching direct memory, Unmarshal reports an invalid type, a short buffer, an unexported field or trailing data, in that order; otherwise it is binary.Read |
| Sysenc.UnmarshalAgreesWithRead | internal/sysenc/marshal_test.go:101-116 | for a settable destination of fixed-size data and a buffer of exactly binary.Size bytes, Unmarshal reports what binary.Read reports, which is success exactly when no unexported field is set; the memories the two leave have the same binary.Write image |
| Sysenc.DirectRoundTrip | internal/sysenc/marshal_test.go:110-113 | Unmarshal into direct memory copies the whole buffer and succeeds, and Marshal of the result hands the same buffer back |
| Sysenc.ExplicitPadLeaves | internal/sysenc/marshal_test.go:26-28 | explicitPad is one blank leaf of four bytes |
| Sysenc.ExplicitPadBytes | internal/sysenc/marshal_test.go:26-28 | explicitPad encodes as four zeros whatever its memory holds, and its blank is clear exactly when it holds zeros |
| Sysenc.UnmarshalDirtiesBlanks | internal/sysenc/marshal_test.go:40 | unmarshalling the bytes 0, 1, 2, 3 into an explicitPad succeeds and leaves its blank bytes non-zero; Marshal then returns those bytes while binary.Write writes four zeros |
| Sysenc.CopyIn | internal/sysenc/marshal_test.go:110-113 | the copy loop writes exactly the given range of the destination memory |
| Sysenc.DecodeLeafInto | internal/sysenc/marshal_test.go:295 | one leaf is decoded in place, and a blank leaf is skipped |
| Sysenc.DecodeInto | internal/sysenc/marshal_test.go:295 | the loop over the leaves leaves the array as the decoding function prescribes |
| Sysenc.Read | internal/sysenc/marshal_test.go:295-296 | binary.Read into an array agrees with the spec function, error cases included |
| Sysenc.Unmarshal | internal/sysenc/marshal_test.go:110-113 | Unmarshal into an array agrees with the spec function, error cases included |
| Sysenc.RandomiseValue | internal/sysenc/marshal_test.go:284-301 | no size means failure and nothing written; otherwise the buffer (byte i = i mod 256) is read into the value, and is returned when the read succeeds |
| Sysenc.StrucSizes | internal/sysenc/marshal_test.go:21-28 | struc packs to 12 bytes and takes 16 in memory; explicitPad takes 4 in both |
| Sysenc.TestCasesEncodable | internal/sysenc/marshal_test.go:30-56 | every test value has fixed-size data |
| Sysenc.TestMarshalCases | internal/sysenc/marshal_test.go:58-76 | each test value marshals to its binary.Size as binary.Write's bytes |
| Sysenc.TestCasesExported | internal/sysenc/marshal_test.go:30-56 | no test value has an unexported field for decoding to set |
| Sysenc.TestUnmarshalCases | internal/sysenc/marshal_test.go:101-116 | each readable test value accepts a buffer of its size and matches binary.Read |
| Sysenc.AbcSizes | internal/sysenc/marshal_test.go:175-180 | struct{A, B uint16; C uint32} is 8 bytes packed and in memory |
| Sysenc.BlankWordSizes | internal/sysenc/marshal_test.go:182-184 | struct{_ uint64} is 8 bytes packed and in memory |
| Sysenc.InterspersedSizes | internal/sysenc/marshal_test.go:230-235 | struct{B uint32; A uint64} is 12 bytes packed and 16 in memory |
| Sysenc.BackingMemoryOfIntegers | internal/sysenc/marshal_test.go:158-174 | the slice, pointer-to-slice, pointer-to-array and pointer-to-int64 cases have direct memory |
| Sysenc.BackingMemoryOfStructs | internal/sysenc/marshal_test.go:175-184 | the two struct cases have direct memory |
| Sysenc.BackingMemoryValid | internal/sysenc/marshal_test.go:158-190 | for every valid case the direct memory is binary.Write's output |
| Sysenc.BackingMemoryOfNil | internal/sysenc/marshal_test.go:197-217 | nil, the nil slice and the nil pointers have no direct memory |
| Sysenc.BackingMemoryOfOpaque | internal/sysenc/marshal_test.go:218-225 | an unexported field or a pointer field rules out direct memory |
| Sysenc.BackingMemoryOfPadded | internal/sysenc/marshal_test.go:226-244 | trailing, interspersed and between-element padding rule out direct memory |
| Sysenc.BackingMemoryInvalid | internal/sysenc/marshal_test.go:197-247 | no invalid case has direct memory |

## Left out

- `internal/sysenc/marshal.go` (the implementation of Marshal, Unmarshal and unsafeBackingMemory) and `encoding/binary` are not part of this model. Their behaviour is modelled from what the tests require and how the standard library behaves.
- The special cases of `Marshal` and `Unmarshal` for `encoding.BinaryMarshaler`, `string`, `[]byte` and single integers are folded into the general path. For the types the tests use, the result is the same.
- Sysenc.DirectMemoryIsEncoding: this lemma, and MarshalIsEncoding, MarshalSound, TestMarshalCases and BackingMemoryValid, require BlanksClear. The promise that handed-out memory equals binary.Write's bytes holds only while the blank (`_`) fields hold zeros. Go's zero values start that way, and Go code cannot assign a blank field. Unmarshal's direct copy does write them, though: UnmarshalDirtiesBlanks shows an explicitPad that, after Unmarshal, marshals to bytes other than binary.Write's. The tests never marshal a value after unmarshalling into it.
- Sysenc.BinaryRead: Go's `binary.Read` panics when decoding reaches a named unexported field. The model returns the error `UnexportedField` with the memory unchanged. The fields that Go has already written before the panic are not modelled. Unmarshal, Read, CanUnmarshalIntoReads, UnmarshalErrors and UnmarshalAgreesWithRead inherit this.
- A nil `*T` that Go's `binary.Write` or `binary.Read` would panic on is modelled as an error (`Unencodable`, `InvalidType`). Calling `CanUnmarshalInto` on the nil interface, which panics in Go, is excluded by its precondition.
- Sysenc layouts cover unsigned and signed integers of 8 to 64 bits, arrays, slices, pointers and structs. They do not cover bool, floats, strings, maps, interfaces, or Go's rule that pads a struct ending in a zero-size field.
- `Ptr(t, _)` stands only for pointers whose target `t` is neither a slice (that is `PtrToSlice`) nor a pointer; the type admits such targets, and the lemmas about all arguments also cover them, though they have no Go counterpart.
- `Value(l)` stands only for values that are neither pointers nor slices, which is how the tests use plain values.
- Unsafe pointer arithmetic, aliasing between the returned buffer and the value, and allocation counts are not modelled (the allocation tests and the benchmarks, internal/sysenc/marshal_test.go:78-99, 118-143, 251-282). The direct memory is modelled as the value's bytes rather than as a shared view.
- The native byte order is not modelled: integers are the bytes of memory, copied as they are.
- BtfBuilder.Builder.Marshal: requires a closed Builder, in which every referenced type is Void or was added. IDs for types reached only by traversal (the encoder's postorder walk) are not modelled.
- BtfBuilder.Placeholder: the placeholder's name is the enum's name followed by "_placeholder". The test pins only the instance "enum64" to "enum64_placeholder" (btf/marshal_test.go:144), so the general rule is assumed.
- BtfBuilder.Builder.FromTypes: NewBuilder does not check that the list starts with Void. The lemmas about reproducing the list assume it does, as the test's list does.
- The BTF wire format (headers, string table, byte layout) is not modelled. The table is a sequence of records, and `Load` checks kinds and reference ranges.
- The vmlinux round trip with its shuffle and the 16-bit ID workaround (btf/marshal_test.go:73-116) need the kernel's type data and a random source. They are not modelled.
- Type IDs are unbounded integers, so the 32-bit TypeID range is not modelled.
- Bpf2goTools.ToUpperFirst: upper-cases ASCII letters only, not full Unicode case mapping. Strings are sequences of runes, so invalid UTF-8 is not modelled.
- `currentModule` (cmd/bpf2go/tools.go:86-94) reads the build information of the running binary and is left out.
