# Two native libraries for an embedded scripting interpreter

This project models the two native libraries of the Lua C API tutorials that
hold logic of their own:

- **boolarray** (`src/09_boolarray_lib.c`) is a packed boolean array. It is a
  full userdata `NumArray` that holds its `size` and a buffer of 32-bit words,
  one bit per element. The library exports `new(n)`, `set(a, i, v)`,
  `get(a, i)` and `size(a)`. Indices are 1-based at the script boundary and
  0-based inside.
- **splitlib** (`src/08_split_lib.c`) exports `split(s, sep)`. It cuts the byte
  string `s` at every occurrence of the first byte of `sep`. The pieces go into a new
  table under keys 1, 2, 3, … The text after the last separator is the final
  piece.

Files:

- `lua.dfy`, module `Lua`: the part of the interpreter boundary the libraries
  use.
  - the argument values a native function receives (`Value<U>`, where `U` is
    the block type of a full userdata);
  - strings as byte strings (`Bytes`, a sequence of `Byte`, a character below
    256);
  - the argument error (`ArgError(arg, msg)`) and the `Result` that carries it;
  - the auxiliary checks and conversions `luaL_checkinteger`,
    `luaL_checkstring`, `luaL_checkany`, `lua_touserdata` and
    `lua_toboolean`.
- `boolarray.dfy`, module `BoolArray`: the bit addressing of the word buffer
  (`I_WORD`, `I_BIT`) as functions on `bv32` words, with lemmas about them.
  - `NumArray` is a class over an `array<bv32>`.
  - Its `Set` and `Get` methods are proved against the abstract contents
    `Contents()`, a sequence of booleans decoded from the words.
  - The four library functions check their arguments in the source's order and
    return the source's error for each failed check.
- `split.dfy`, module `Split`: a recursive specification `Pieces` of the
  split, and `Join` as its inverse.
  - `SplitLib` is the library function, written as the source's `strchr` loop.
    It advances over the unsplit rest of the string and fills a table
    (`map<int, string>`).
  - It is proved to produce the sequential table of `Pieces`.

The C code reads strings only up to their first NUL byte (`strchr`,
`lua_pushstring`). `CString` models that view, and `PlainCString` shows it is
the identity on NUL-free strings.

## Model

| member | source | states |
|---|---|---|
| BoolArray.WordIndex | src/09_boolarray_lib.c:8 | `I_WORD(i)`: the word w with 32w <= i < 32w + 32, so the quotient of i by 32 |
| BoolArray.BitIndex | src/09_boolarray_lib.c:9 | the shift amount of `I_BIT(i)`, i mod 32 as a 5-bit position; SameSlot proves that it and WordIndex locate an index uniquely |
| BoolArray.Mask | src/09_boolarray_lib.c:9 | `I_BIT` as the unsigned single-bit mask at position b; SetBitAt and ClearBitAt prove that it touches only bit b |
| BoolArray.TestBit | src/09_boolarray_lib.c:57 | the test `values[w] & I_BIT(i)` is nonzero |
| BoolArray.WordCount | src/09_boolarray_lib.c:23-27 | `I_WORD(n-1)+1`, the words allocated and zeroed; WordCountIsCeiling proves it is ceil(n/32) |
| BoolArray.SetBit | src/09_boolarray_lib.c:42 | w or-ed with `I_BIT(b)`; its meaning is stated by SetBitAt |
| BoolArray.ClearBit | src/09_boolarray_lib.c:44 | `w & ~I_BIT(b)`; its meaning is stated by ClearBitAt |
| BoolArray.PutBit | src/09_boolarray_lib.c:41-45 | the branch on the truthiness of v; its meaning is stated by PutBitAt |
| BoolArray.Store | src/09_boolarray_lib.c:41-45 | the word buffer after the update of word `I_WORD(i)`; StoreTouchesOneBit and StoreDecode state what it changes |
| BoolArray.Decode | src/09_boolarray_lib.c:57 | the n booleans the words hold, element k being bit `I_BIT(k)` of word `I_WORD(k)`; exactly n of them |
| BoolArray.NumArray.Valid | src/09_boolarray_lib.c:11-14 | a block as `newarray` leaves it: size at least 1 and exactly `I_WORD(size-1)+1` words |
| BoolArray.NumArray.Contents | src/09_boolarray_lib.c:11-14 | the size booleans of the block, decoded from its words |
| BoolArray.IndexAsWritten | src/09_boolarray_lib.c:35 | the 0-based index as the source computes it, after the `(int)` cast; NarrowedIndexPassesCheck shows where it departs from i - 1 |
| BoolArray.WordCountIsCeiling | src/09_boolarray_lib.c:7-8 | `I_WORD(n-1)+1` words hold n bits with fewer than 32 to spare, so the count is ceil(n/32) |
| BoolArray.IndexInBounds | src/09_boolarray_lib.c:8 | every index below n lands in a word below `I_WORD(n-1)+1` |
| BoolArray.SameSlot | src/09_boolarray_lib.c:8-9 | two indices with the same word and the same bit position are the same index |
| BoolArray.SetBitAt | src/09_boolarray_lib.c:42 | after or-ing in `I_BIT(b)` bit b is set and every other bit is as before |
| BoolArray.ClearBitAt | src/09_boolarray_lib.c:44 | after and-ing with `~I_BIT(b)` bit b is clear and every other bit is as before |
| BoolArray.PutBitAt | src/09_boolarray_lib.c:41-45 | writing v at bit b reads back v at b and leaves other bits alone |
| BoolArray.StoreDecode | src/09_boolarray_lib.c:41-45 | storing v at index i changes the decoded booleans at i to v and nowhere else |
| BoolArray.StoreTouchesOneBit | src/09_boolarray_lib.c:42-44 | a store keeps the word count and every other word, sets bit `i % 32` of word `i / 32` to v, and keeps that word's other bits |
| BoolArray.PutBitIdempotent | src/09_boolarray_lib.c:42-44 | writing the same bit value twice equals writing it once |
| BoolArray.StoreIdempotent | src/09_boolarray_lib.c:42-44 | `set(i,v); set(i,v)` leaves the same words as one `set(i,v)` |
| BoolArray.ZeroWordsDecode | src/09_boolarray_lib.c:27-28 | all-zero words decode to n false values |
| BoolArray.NumArray.constructor | src/09_boolarray_lib.c:23-28 | a fresh buffer of `I_WORD(n-1)+1` words, every word zero after the source's loop, with size n and every element false |
| BoolArray.NumArray.Set | src/09_boolarray_lib.c:41-45 | the contents become the old contents with element `index` replaced by v, and the words become the single-bit store |
| BoolArray.NumArray.Get | src/09_boolarray_lib.c:57 | the result is element `index` of the contents (the tested bit is nonzero) |
| BoolArray.CheckIndex | src/09_boolarray_lib.c:34-38 | accepts exactly a userdata with an integer index in [1, size]; yields the block and the index minus one, whose word is within the buffer; otherwise the checkinteger error, then `'array' exception` on argument 1, then `index out of range` on argument 2, in that order |
| BoolArray.CheckSet | src/09_boolarray_lib.c:34-41 | accepts exactly what CheckIndex accepts, provided there is a third argument; the value is false only for nil and false; with no third argument it fails with `value expected` on argument 3 |
| BoolArray.NewArray | src/09_boolarray_lib.c:16-31 | succeeds exactly for an integer n >= 1 and returns a fresh array of size n whose `I_WORD(n-1)+1` words are all zero, so all elements are false; otherwise the checkinteger error, or `invalid size` on argument 1 with nothing allocated |
| BoolArray.SetArray | src/09_boolarray_lib.c:33-48 | fails exactly as CheckSet does, with the words untouched; on success element i-1 becomes the truthiness of the third argument and nothing else changes, and the words are the single-bit store of bit `(i-1) % 32` of word `(i-1) / 32` |
| BoolArray.GetArray | src/09_boolarray_lib.c:50-60 | fails exactly as CheckIndex does; on success it returns element i-1 of the contents |
| BoolArray.GetSize | src/09_boolarray_lib.c:62-70 | returns the size given to `new` for a userdata, otherwise `'array' exception` on argument 1 |
| BoolArray.ToInt32 | src/09_boolarray_lib.c:35 | the `(int)` cast: a value in the 32-bit signed range congruent to x modulo 2^32 |
| BoolArray.NarrowedIndexPassesCheck | src/09_boolarray_lib.c:35-38 | with the cast as written, index 2^32+1 on an array of size 1 passes the range check as element 0 |
| Lua.Arg | src/09_boolarray_lib.c:21 | the argument at a 1-based position, or none when fewer were passed |
| Lua.TypeName | src/09_boolarray_lib.c:21 | the type name an argument error quotes |
| Lua.CheckInteger | src/09_boolarray_lib.c:21 | `luaL_checkinteger`: succeeds exactly for an integer argument and yields it, otherwise "number expected" on that argument |
| Lua.CheckString | src/08_split_lib.c:9-10 | `luaL_checkstring`: succeeds exactly for a string argument and yields it, otherwise "string expected" on that argument |
| Lua.CheckAny | src/09_boolarray_lib.c:39 | `luaL_checkany`: succeeds exactly when the argument is present, nil included |
| Lua.ToUserdata | src/09_boolarray_lib.c:34 | `lua_touserdata`: the block exactly when the argument is a userdata, NULL otherwise |
| Lua.ToBoolean | src/09_boolarray_lib.c:41 | `lua_toboolean`: true exactly for a present argument other than nil and false |
| Split.CString | src/08_split_lib.c:9-10 | the C view of a string is a NUL-free prefix that ends at the first NUL |
| Split.PlainCString | src/08_split_lib.c:9-10 | a NUL-free string is seen whole |
| Split.Find | src/08_split_lib.c:16 | `strchr`: the first position holding d, or None exactly when there is none |
| Split.Pieces | src/08_split_lib.c:16-23 | the pieces of s between the delimiters, the reference for the loop; at least one piece; JoinPieces, PiecesOfJoin, PiecesAreFree and PieceCount state its properties |
| Split.Join | src/08_split_lib.c:16-23 | the pieces written out with the delimiter between neighbours; JoinPieces and PiecesOfJoin prove it inverse to Pieces |
| Split.CutPiece | src/08_split_lib.c:16-19 | one loop round moves the text before the hit from the unsplit rest to the pieces done, keeping their concatenation the pieces of s |
| Split.JoinPieces | src/08_split_lib.c:16-23 | joining the pieces with the delimiter reproduces the string |
| Split.PiecesOfJoin | src/08_split_lib.c:16-23 | splitting the join of delimiter-free pieces gives back those pieces |
| Split.PiecesAreFree | src/08_split_lib.c:16-17 | no piece contains the delimiter |
| Split.PieceCount | src/08_split_lib.c:16-23 | the number of pieces is the number of delimiters plus one |
| Split.FindAfterPiece | src/08_split_lib.c:16 | in `p + d + rest` with p free of d, `strchr` stops right after p |
| Split.CutAt | src/08_split_lib.c:16-19 | a d-free text followed by d is the first piece, followed by the pieces of the rest |
| Split.PiecesStep | src/08_split_lib.c:16-19 | one loop round: the first piece is the text before `strchr`'s hit, and the rest continues after it |
| Split.PiecesLast | src/08_split_lib.c:22-23 | a rest with no delimiter is the last piece |
| Split.AdjacentDelimiters | src/08_split_lib.c:16-23 | "a,b,,c" splits into "a", "b", "" and "c" (for any bytes distinct from the delimiter) |
| Split.OuterDelimiters | src/08_split_lib.c:16-23 | ",a," splits into "", "a" and "" |
| Split.EmptyString | src/08_split_lib.c:22-23 | the empty string splits into one empty piece |
| Split.Table | src/08_split_lib.c:16-23 | a sequential table of k pieces has exactly the keys 1..k |
| Split.TableAppend | src/08_split_lib.c:16-23 | `rawseti` at key k+1 on the table of k pieces gives the table of k+1 pieces |
| Split.TableLookup | src/08_split_lib.c:16-23 | key j of the table holds piece j |
| Split.SplitLib | src/08_split_lib.c:7-26 | a missing or non-string first, then second, argument fails with the checkstring error before any table exists; otherwise one table whose keys are exactly 1..k, key j holding the j-th piece of s cut at the first byte of sep; the separator's C string must be non-empty only when both arguments are strings |

## Left out

- Registration: the `luaL_Reg` tables and the `luaopen_*` functions (src/09_boolarray_lib.c:72-83, src/08_split_lib.c:28-37). They only wire names to function pointers inside the interpreter.
- Stack effects: the result counts (`return 0` or `return 1`) and the pushes of results appear as the method's result value. The interpreter's stack itself is not modelled.
- Allocation: `lua_newuserdata`, the `nbytes` arithmetic (src/09_boolarray_lib.c:23-24) and garbage-collection lifetime. The model allocates exactly the word count with `new`.
- Coercions: the interpreter's conversions between numbers and numeric strings in `luaL_checkinteger` and `luaL_checkstring` are not modelled. An argument is an integer or a string only when it has that type.
- Floats: `Value` has no float case at all. So `new(2.5)` or `set(a, 1.5, v)` cannot be expressed, nor the error `luaL_checkinteger` raises for them ("number has no integer representation"). An integral float such as `new(3.0)`, which the interpreter accepts, is not modelled either.
- Word width: `BITS_PER_WORD` is fixed at 32. The source's `CHAR_BIT * sizeof(unsigned int)` (src/09_boolarray_lib.c:7) depends on the platform; it is 32 on the usual targets.
- Userdata types: `lua_touserdata` accepts any userdata, and the source then reads it as a `NumArray` without checking. The model only lets a userdata carry a `NumArray`.
- BoolArray.NewArray: the size is unbounded. The source stores it in a C `int` (src/09_boolarray_lib.c:12, 21), so a size of 2^31 or more would be narrowed.
- BoolArray.Mask: `I_BIT` shifts a signed `1` (src/09_boolarray_lib.c:9), which is undefined behaviour for bit 31. The model uses the unsigned mask the code evidently intends.
- BoolArray.GetSize: the source pushes the size with `lua_pushnumber`, which makes a float. The model returns the natural number.
- Split.SplitLib: requires a separator whose C string is non-empty. With an empty separator, `strchr(s, '\0')` finds the terminator and the loop steps past the end of `s` (src/08_split_lib.c:16-19), which is undefined behaviour in C.
- Split.SplitLib: strings with embedded NUL bytes are modelled through `CString`, the part `strchr` and `lua_pushstring` see. The length-only view that `lua_pushlstring` has of a piece always lies within that part.

## Findings

| source | as written | input that shows it | evidently intended | confidence | as-written member | corrected member |
|---|---|---|---|---|---|---|
| src/09_boolarray_lib.c:35 | `(int) luaL_checkinteger(L, 2) - 1` narrows the 64-bit script integer to 32 bits before the range check | `set(a, 4294967297, true)` on an array of size 1 (the same cast is at line 52 in `get`): the index narrows to 1, so it passes the check as element 0 | indices outside [1, size] fail with "index out of range" | not executed | BoolArray.NarrowedIndexPassesCheck | BoolArray.CheckIndex |
