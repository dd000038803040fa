# ByteArray_t: a byte window and its macros

This project models the general purpose byte array of IoTivity's C common
library, `ByteArray_t` in `resource/c_common/experimental/byte_array.h`: a
`data` pointer and a `len` count, and the macros that act on such a struct
in place.

- `BYTE_ARRAY_INITIALIZER` and `INIT_BYTE_ARRAY` give the empty array (`NULL`, 0).
- `DEINIT_BYTE_ARRAY` releases the buffer and resets the fields.
- `INC_BYTE_ARRAY` and `INC_BYTE_ARRAY_PTR` consume a prefix: `data` moves
  forward by `size` and `len` shrinks by `size`.
- `PRINT_BYTE_ARRAY` writes the message through `%10s`, then every byte as
  `%02X ` with a line break before each byte whose index is a non-zero
  multiple of 16, then a final line break.

Layout:

- `stdint.dfy`, module `StdInt`: the `uint8` type.
- `byte_array.dfy`, module `ByteArrays`: the pointer `Ptr` (`Null` or an
  offset into `mem`, the allocation it points into), the struct value
  `View`, the functions that specify each macro (`Initializer`,
  `Advanced`, `Bytes`, `End`), the lemmas about advancing, and the class
  `ByteArray` whose methods assign `data` and `len` in place as the macros do.
- `hex_dump.dfy`, module `HexDump`: the text `PRINT_BYTE_ARRAY` writes, as
  pure functions (`Padded`, `Hex2`, `Cells`, `Dump`), with its exact length,
  the position of every byte and line break, and its injectivity.

`ByteArray.Print` runs the printing loop over the fields and is proved to
return `Padded(msg) + Dump(Contents())`. `ByteArray.Inc` and `IncPtr` are
proved to leave the fields equal to `Advanced` of the old ones. The lemmas
then show what that means for the visible bytes.

## Model

| member | source | states |
|---|---|---|
| `ByteArrays.Bytes` | resource/c_common/experimental/byte_array.h:42-46 | a well-formed array shows exactly `len` bytes, `data[0] .. data[len-1]` |
| `ByteArrays.Initializer` | resource/c_common/experimental/byte_array.h:54 | `{NULL, 0}` is well formed over any memory and shows no bytes |
| `ByteArrays.ByteArray.constructor` | resource/c_common/experimental/byte_array.h:54 | an array declared with `BYTE_ARRAY_INITIALIZER` has null `data`, `len == 0` and shows nothing |
| `ByteArrays.ByteArray.Over` | resource/c_common/experimental/byte_array.h:42-46 | an array set to `{p, n}` shows the `n` bytes starting at `p` |
| `ByteArrays.ByteArray.Init` | resource/c_common/experimental/byte_array.h:63-66 | whatever the fields held, afterwards `data` is null and `len` is 0; the memory it pointed to is not released |
| `ByteArrays.ByteArray.Deinit` | resource/c_common/experimental/byte_array.h:75-79 | the allocation is released and the fields are reset to null and 0; nothing of the old state survives |
| `ByteArrays.Advanced` | resource/c_common/experimental/byte_array.h:120-123 | advancing by `size` keeps the end `data + len` where it was and shortens `len` by exactly `size` |
| `ByteArrays.ByteArray.Inc` | resource/c_common/experimental/byte_array.h:120-123 | in place, the fields become the advanced fields, the end is unchanged and the bytes shown are the old ones without their first `size`; the memory is untouched |
| `ByteArrays.IncPtr` | resource/c_common/experimental/byte_array.h:107-110 | through a pointer, the same effect as `Inc`, and only the `data` and `len` fields of the pointed-to struct change |
| `ByteArrays.CanAdvance` | resource/c_common/experimental/byte_array.h:107-110 | the caller's obligation for `INC_BYTE_ARRAY_PTR`/`INC_BYTE_ARRAY` (also lines 120-123): on a well-formed array it holds exactly when `size <= len`, so `len -= size` on the `size_t` does not wrap |
| `ByteArrays.AdvanceDropsPrefix` | resource/c_common/experimental/byte_array.h:121-122 | advancing a well-formed array by at most `len` is allowed, keeps it well formed, and drops exactly the first `size` bytes |
| `ByteArrays.AdvanceByZero` | resource/c_common/experimental/byte_array.h:121-122 | advancing by 0 changes nothing |
| `ByteArrays.AdvanceByLength` | resource/c_common/experimental/byte_array.h:121-122 | advancing by `len` leaves an empty array whose `data` is the old end |
| `ByteArrays.AdvanceTwice` | resource/c_common/experimental/byte_array.h:120-123 | advancing by `a` and then by `b` is advancing once by `a + b` |
| `ByteArrays.ByteArray.Print` | resource/c_common/experimental/byte_array.h:89-97 | the printing loop writes exactly the padded message followed by the dump of the bytes shown |
| `HexDump.HexDigit` | resource/c_common/experimental/byte_array.h:94 | `%X` of a value below 16 is an upper-case hexadecimal digit whose value is that number |
| `HexDump.Hex2` | resource/c_common/experimental/byte_array.h:94 | `%02X` of a byte is two upper-case digits, high digit first, whose value is the byte |
| `HexDump.Hex2Injective` | resource/c_common/experimental/byte_array.h:94 | two bytes with the same `%02X` text are equal |
| `HexDump.Padded` | resource/c_common/experimental/byte_array.h:91 | `%10s` is at least ten characters wide, never truncates, and ends with the message |
| `HexDump.PaddedWithSpaces` | resource/c_common/experimental/byte_array.h:91 | every character `%10s` writes before the message is a space |
| `HexDump.Cells` | resource/c_common/experimental/byte_array.h:92-95 | what the first `n` iterations of the loop write, each iteration its optional line break, two digits and a space; at least three characters per byte; exact length in `CellsLength` |
| `HexDump.Dump` | resource/c_common/experimental/byte_array.h:92-96 | the cells of all bytes followed by `'\n'`: at least `3n + 1` characters ending with a line break; characterized exactly by `DumpLength` and `DumpAt` |
| `HexDump.CellsLength` | resource/c_common/experimental/byte_array.h:92-95 | the first `n` loop iterations write `3n` characters plus one line break per index in `1 .. n-1` that is a multiple of 16 |
| `HexDump.DumpLength` | resource/c_common/experimental/byte_array.h:92-96 | the dump of `n` bytes has length `3n + (n-1)/16 + 1` when `n > 0` and 1 when `n == 0`, and ends with a line break |
| `HexDump.DumpAt` | resource/c_common/experimental/byte_array.h:92-96 | byte `i` is printed as its two digits and a space at position `3i + i/16`, and a line break stands right before every byte whose index is a non-zero multiple of 16 |
| `HexDump.DumpInjective` | resource/c_common/experimental/byte_array.h:92-96 | two byte sequences with the same dump are equal |

## Left out

- `service/basis/resourceBroker/include/ResourceBroker.h`: it holds declarations only (a mutex-guarded singleton over a list of `DevicePresence` objects and `BrokerCB` callbacks), with no bodies to model; `DevicePresence` is not part of this model.
- Memory release: the `OICFree` call of `DEINIT_BYTE_ARRAY` is a foreign allocator call; the model only empties `mem` and resets the fields. `mem` means nothing for a null view, so emptying it after `OICFree(NULL)`, which releases nothing, has no visible effect. `ByteArrays.ByteArray.Deinit` requires `data` to be null or the start of the allocation, which is what `OICFree` demands of its argument.
- Output: the `printf`/`putchar` calls of `PRINT_BYTE_ARRAY` are modelled as the returned text; standard output itself is not modelled. The message is taken as the characters before its terminating NUL.
- HexDump.Padded: the `%10s` field width is counted in Dafny characters, while C counts bytes; the model matches C only when every character of the message is a single byte (a UTF-8 "é", two bytes in C, gets one space more here).
- Macro arguments: `INC_BYTE_ARRAY`, `INC_BYTE_ARRAY_PTR` and `PRINT_BYTE_ARRAY` paste their arguments' text, so C evaluates `array` and `size` once per use (twice in the advancing macros, on every loop test and byte read in the printing macro). The model takes each argument as a side-effect-free value evaluated once; repeated evaluation with side effects, and the capture of a caller's `i` by the printing macro's own `size_t i`, are not modelled.
- Pointers: `data` is an offset into one allocation (`mem`) or null; other pointer validity questions, aliasing between two structs over one buffer, and pointer overflow are not modelled.
- ByteArrays.ByteArray.Inc: requires `size <= len`; when the caller passes a larger `size`, the C `size_t` subtraction would wrap around modulo `SIZE_MAX + 1`, and that case is not modelled. The same holds for `ByteArrays.IncPtr` and `ByteArrays.Advanced`.
- ByteArrays.IncPtr: requires `size <= len` for the same reason as `Inc`; the wrap-around is not modelled.
- ByteArrays.Advanced: requires `size <= len`, and `size == 0` on a null pointer (adding to `NULL` is undefined in C); the wrap-around is not modelled.
- `size_t` width: `len` is an unbounded natural number; a length beyond `SIZE_MAX` is not excluded.
