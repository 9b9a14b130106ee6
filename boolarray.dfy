/** The packed boolean array library: a userdata block holding `size` booleans,
    packed 32 to a word, with 1-based `new`, `set`, `get` and `size` operations
    that check their arguments before they compute any word address. */
module BoolArray {
  import opened Lua

  /** Bits in one `unsigned int` word. The arithmetic below writes it as the
      literal 32, which keeps division and multiplication by it linear. */
  const BITS_PER_WORD: nat := 32

  const ARRAY_EXCEPTION := "'array' exception"
  const INDEX_OUT_OF_RANGE := "index out of range"
  const INVALID_SIZE := "invalid size"

  // ---------------------------------------------------------------------------
  // Word and bit addressing

  /** `I_WORD`: the word that holds 0-based index i. */
  function WordIndex(i: nat): (w: nat)
    ensures 32 * w <= i < 32 * w + 32
  {
    i / 32
  }

  /** The shift amount of `I_BIT`: the position of index i inside its word. */
  function BitIndex(i: nat): bv5
  {
    (i % 32) as bv5
  }

  /** `I_BIT` as an unsigned mask: the single bit at position b. */
  function Mask(b: bv5): bv32
  {
    1 << (b as bv32)
  }

  /** Whether bit b of word w is set. */
  predicate TestBit(w: bv32, b: bv5)
  {
    w & Mask(b) != 0
  }

  /** The number of words `newarray` allocates for n elements: `I_WORD(n-1)+1`. */
  function WordCount(n: nat): nat
    requires n >= 1
  {
    WordIndex(n - 1) + 1
  }

  /** Proof step for SameSlot: a bit position survives the trip through bv5. */
  lemma BitPositionRoundTrip(x: nat)
    requires x < BITS_PER_WORD
    ensures (x as bv5) as int == x
  {
  }

  /** Two indices with the same word and the same bit position are the same index. */
  lemma SameSlot(i: nat, k: nat)
    requires WordIndex(i) == WordIndex(k) && BitIndex(i) == BitIndex(k)
    ensures i == k
  {
    BitPositionRoundTrip(i % 32);
    BitPositionRoundTrip(k % 32);
  }

  /** `I_WORD(n-1)+1` is ceil(n/32): enough words for n bits, and none to spare. */
  lemma WordCountIsCeiling(n: nat)
    requires n >= 1
    ensures n <= WordCount(n) * 32 < n + 32
  {
  }

  /** Every 0-based index below n lies in one of the `I_WORD(n-1)+1` words. */
  lemma IndexInBounds(i: nat, n: nat)
    requires i < n
    ensures WordIndex(i) < WordCount(n)
  {
  }

  // ---------------------------------------------------------------------------
  // Single-bit updates of one word

  /** `w |= I_BIT(...)`. */
  function SetBit(w: bv32, b: bv5): bv32
  {
    w | Mask(b)
  }

  /** `w &= ~I_BIT(...)`. */
  function ClearBit(w: bv32, b: bv5): bv32
  {
    w & !Mask(b)
  }

  lemma OrMaskAt(w: bv32, b: bv5, c: bv5)
    ensures (w | Mask(b)) & Mask(c) != 0 <==> c == b || w & Mask(c) != 0
  {
  }

  lemma AndNotMaskAt(w: bv32, b: bv5, c: bv5)
    ensures (w & !Mask(b)) & Mask(c) != 0 <==> c != b && w & Mask(c) != 0
  {
  }

  /** Setting bit b makes bit b set and keeps every other bit. */
  lemma SetBitAt(w: bv32, b: bv5, c: bv5)
    ensures TestBit(SetBit(w, b), c) <==> c == b || TestBit(w, c)
  {
    OrMaskAt(w, b, c);
  }

  /** Clearing bit b makes bit b clear and keeps every other bit. */
  lemma ClearBitAt(w: bv32, b: bv5, c: bv5)
    ensures TestBit(ClearBit(w, b), c) <==> c != b && TestBit(w, c)
  {
    AndNotMaskAt(w, b, c);
  }

  /** The word that `set` writes: bit b becomes v, every other bit is kept. */
  function PutBit(w: bv32, b: bv5, v: bool): bv32
  {
    if v then SetBit(w, b) else ClearBit(w, b)
  }

  lemma PutBitAt(w: bv32, b: bv5, v: bool, c: bv5)
    ensures TestBit(PutBit(w, b, v), c) <==> if c == b then v else TestBit(w, c)
  {
    if v {
      SetBitAt(w, b, c);
    } else {
      ClearBitAt(w, b, c);
    }
  }

  // ---------------------------------------------------------------------------
  // The packed representation

  /** The n booleans that a word buffer packs: index k is bit `BitIndex(k)` of
      word `WordIndex(k)`. */
  function Decode(words: seq<bv32>, n: nat): (bits: seq<bool>)
    requires n <= |words| * 32
    ensures |bits| == n
  {
    seq(n, k requires 0 <= k < n => TestBit(words[WordIndex(k)], BitIndex(k)))
  }

  /** The word buffer after setting (v) or clearing (!v) 0-based index i. */
  function Store(words: seq<bv32>, i: nat, v: bool): seq<bv32>
    requires WordIndex(i) < |words|
  {
    var w := WordIndex(i);
    words[w := PutBit(words[w], BitIndex(i), v)]
  }

  /** Storing v at index i changes the decoded booleans at index i only, to v. */
  lemma StoreDecode(words: seq<bv32>, n: nat, i: nat, v: bool)
    requires n <= |words| * 32 && i < n
    ensures Decode(Store(words, i, v), n) == Decode(words, n)[i := v]
  {
    var after := Store(words, i, v);
    forall k | 0 <= k < n
      ensures Decode(after, n)[k] == Decode(words, n)[i := v][k]
    {
      if WordIndex(k) == WordIndex(i) {
        PutBitAt(words[WordIndex(i)], BitIndex(i), v, BitIndex(k));
        if k != i && BitIndex(k) == BitIndex(i) {
          SameSlot(k, i);
        }
      }
    }
  }

  /** Storing touches one bit of one word: bit `BitIndex(i)` of word
      `WordIndex(i)` becomes v, every other bit of every word is kept. */
  lemma StoreTouchesOneBit(words: seq<bv32>, i: nat, v: bool)
    requires WordIndex(i) < |words|
    ensures |Store(words, i, v)| == |words|
    ensures forall j :: 0 <= j < |words| && j != WordIndex(i) ==> Store(words, i, v)[j] == words[j]
    ensures TestBit(Store(words, i, v)[WordIndex(i)], BitIndex(i)) == v
    ensures forall c: bv5 :: c != BitIndex(i) ==>
              (TestBit(Store(words, i, v)[WordIndex(i)], c) <==> TestBit(words[WordIndex(i)], c))
  {
    var w := words[WordIndex(i)];
    PutBitAt(w, BitIndex(i), v, BitIndex(i));
    forall c: bv5 | c != BitIndex(i)
      ensures TestBit(PutBit(w, BitIndex(i), v), c) <==> TestBit(w, c)
    {
      PutBitAt(w, BitIndex(i), v, c);
    }
  }

  /** Proof step for PutBitIdempotent: or-ing in a mask twice is or-ing it once. */
  lemma OrIdempotent(w: bv32, m: bv32)
    ensures (w | m) | m == w | m
  {
  }

  /** Proof step for PutBitIdempotent: and-ing with a mask twice is and-ing once. */
  lemma AndIdempotent(w: bv32, m: bv32)
    ensures (w & m) & m == w & m
  {
  }

  /** Writing the same bit twice gives the word that writing it once gives. */
  lemma PutBitIdempotent(w: bv32, b: bv5, v: bool)
    ensures PutBit(PutBit(w, b, v), b, v) == PutBit(w, b, v)
  {
    if v {
      OrIdempotent(w, Mask(b));
    } else {
      AndIdempotent(w, !Mask(b));
    }
  }

  /** Storing the same value twice leaves the words as storing it once does. */
  lemma StoreIdempotent(words: seq<bv32>, i: nat, v: bool)
    requires WordIndex(i) < |words|
    ensures Store(Store(words, i, v), i, v) == Store(words, i, v)
  {
    PutBitIdempotent(words[WordIndex(i)], BitIndex(i), v);
  }

  /** All-zero words decode to all-false booleans. */
  lemma ZeroWordsDecode(words: seq<bv32>, n: nat)
    requires n <= |words| * 32
    requires forall j :: 0 <= j < |words| ==> words[j] == 0
    ensures Decode(words, n) == seq(n, _ => false)
  {
    forall k | 0 <= k < n
      ensures !Decode(words, n)[k]
    {
      assert words[WordIndex(k)] == 0;
    }
  }

  // ---------------------------------------------------------------------------
  // The userdata block

  /** `struct NumArray`: the element count and the word buffer. Both are written
      once, when the block is created. */
  class NumArray {
    const size: nat
    const values: array<bv32>

    /** A block as `newarray` builds it: at least one element and exactly
        `I_WORD(size-1)+1` words. */
    ghost predicate Valid()
    {
      size >= 1 && values.Length == WordCount(size)
    }

    /** The booleans the block holds, index 0 first. */
    ghost function Contents(): (bits: seq<bool>)
      reads values
      requires Valid()
      ensures |bits| == size
    {
      WordCountIsCeiling(size);
      Decode(values[..], size)
    }

    /** The allocation and zeroing of `newarray`, for a size already checked. */
    constructor (n: nat)
      requires n >= 1
      ensures Valid() && size == n && fresh(values)
      ensures values[..] == seq(WordCount(n), _ => 0)
      ensures Contents() == seq(n, _ => false)
    {
      var words := new bv32[WordCount(n)];
      var i := 0;
      while i <= WordIndex(n - 1)
        invariant 0 <= i <= words.Length
        invariant forall j :: 0 <= j < i ==> words[j] == 0
      {
        words[i] := 0;
        i := i + 1;
      }
      size := n;
      values := words;
      new;
      assert words[..] == seq(WordCount(n), _ => 0);
      WordCountIsCeiling(n);
      ZeroWordsDecode(words[..], n);
    }

    /** The bit update of `setarray`, for a 0-based index already checked. */
    method Set(index: nat, v: bool)
      requires Valid() && index < size
      modifies values
      ensures Contents() == old(Contents())[index := v]
      ensures values[..] == Store(old(values[..]), index, v)
    {
      IndexInBounds(index, size);
      WordCountIsCeiling(size);
      StoreDecode(values[..], size, index, v);
      var w := WordIndex(index);
      if v {
        values[w] := SetBit(values[w], BitIndex(index));
      } else {
        values[w] := ClearBit(values[w], BitIndex(index));
      }
    }

    /** The bit test of `getarray`, for a 0-based index already checked. */
    method Get(index: nat) returns (b: bool)
      requires Valid() && index < size
      ensures b == Contents()[index]
    {
      IndexInBounds(index, size);
      b := values[WordIndex(index)] & Mask(BitIndex(index)) != 0;
    }
  }

  // ---------------------------------------------------------------------------
  // The library functions, over the arguments of the call

  /** The argument prologue `setarray` and `getarray` share: the block of
      argument 1, the 1-based index of argument 2 made 0-based, and the checks
      in the order the C code makes them. */
  function CheckIndex(args: seq<Value<NumArray>>): (r: Result<(NumArray, nat)>)
    ensures r.Ok? <==>
      |args| >= 2 && args[0].Userdata? && args[1].Integer? && 1 <= args[1].i <= args[0].block.size
    ensures r.Ok? ==> r.value.0 == args[0].block && r.value.1 == args[1].i - 1
    ensures r.Ok? && r.value.0.Valid() ==> WordIndex(r.value.1) < r.value.0.values.Length
    ensures CheckInteger(args, 2).Err? ==> r == Err(CheckInteger(args, 2).error)
    ensures CheckInteger(args, 2).Ok? && !args[0].Userdata? ==> r == Err(ArgError(1, ARRAY_EXCEPTION))
    ensures CheckInteger(args, 2).Ok? && args[0].Userdata? && !(1 <= args[1].i <= args[0].block.size) ==>
              r == Err(ArgError(2, INDEX_OUT_OF_RANGE))
  {
    var a := ToUserdata(args, 1);
    var i :- CheckInteger(args, 2);
    var index := i - 1;
    if a.None? then
      Err(ArgError(1, ARRAY_EXCEPTION))
    else if !(0 <= index < a.value.size) then
      Err(ArgError(2, INDEX_OUT_OF_RANGE))
    else
      IndexInBounds(index, a.value.size);
      Ok((a.value, index))
  }

  /** The checks of `setarray`: the shared prologue, then a third argument must
      be present; its truthiness is the value to store. */
  function CheckSet(args: seq<Value<NumArray>>): (r: Result<(NumArray, nat, bool)>)
    ensures r.Ok? <==> CheckIndex(args).Ok? && |args| >= 3
    ensures r.Ok? ==> (r.value.0, r.value.1) == CheckIndex(args).value
    ensures r.Ok? ==> (r.value.2 <==> !(args[2].Nil? || args[2] == Boolean(false)))
    ensures CheckIndex(args).Err? ==> r == Err(CheckIndex(args).error)
    ensures CheckIndex(args).Ok? && |args| < 3 ==> r == Err(ArgError(3, "value expected"))
  {
    var (a, index) :- CheckIndex(args);
    var _ :- CheckAny(args, 3);
    Ok((a, index, ToBoolean(args, 3)))
  }

  /** `newarray(n)`: a zeroed block of n elements, or an argument error when
      n is not an integer or is below 1; nothing is allocated on an error. */
  method NewArray(args: seq<Value<NumArray>>) returns (r: Result<NumArray>)
    ensures r.Ok? <==> |args| >= 1 && args[0].Integer? && args[0].i >= 1
    ensures CheckInteger(args, 1).Err? ==> r == Err(CheckInteger(args, 1).error)
    ensures CheckInteger(args, 1).Ok? && args[0].i < 1 ==> r == Err(ArgError(1, INVALID_SIZE))
    ensures r.Ok? ==> fresh(r.value.values) && r.value.Valid() && r.value.size == args[0].i
    ensures r.Ok? ==> r.value.values.Length == WordCount(r.value.size)
    ensures r.Ok? ==> r.value.values[..] == seq(WordCount(r.value.size), _ => 0)
    ensures r.Ok? ==> r.value.Contents() == seq(r.value.size, _ => false)
  {
    var n :- CheckInteger(args, 1);
    if n < 1 {
      return Err(ArgError(1, INVALID_SIZE));
    }
    var a := new NumArray(n);
    return Ok(a);
  }

  /** `setarray(a, i, v)`: on success, element i (1-based) of the block now
      holds the truthiness of v and no other element changed; on an argument
      error the block is untouched. */
  method SetArray(args: seq<Value<NumArray>>) returns (r: Result<()>)
    requires |args| >= 1 && args[0].Userdata? ==> args[0].block.Valid()
    modifies if |args| >= 1 && args[0].Userdata? then {args[0].block.values} else {}
    ensures r.Err? <==> CheckSet(args).Err?
    ensures r.Err? ==> r.error == CheckSet(args).error
    ensures r.Err? && |args| >= 1 && args[0].Userdata? ==>
              args[0].block.values[..] == old(args[0].block.values[..])
    ensures r.Ok? ==> var a := args[0].block;
              a.Contents() == old(a.Contents())[args[1].i - 1 := CheckSet(args).value.2]
    ensures r.Ok? ==> var a := args[0].block;
              a.values[..] == Store(old(a.values[..]), args[1].i - 1, CheckSet(args).value.2)
  {
    var req :- CheckSet(args);
    var (a, index, v) := req;
    a.Set(index, v);
    return Ok(());
  }

  /** `getarray(a, i)`: element i (1-based) of the block, or the argument error
      of the shared prologue. */
  method GetArray(args: seq<Value<NumArray>>) returns (r: Result<bool>)
    requires |args| >= 1 && args[0].Userdata? ==> args[0].block.Valid()
    ensures r.Err? <==> CheckIndex(args).Err?
    ensures r.Err? ==> r.error == CheckIndex(args).error
    ensures r.Ok? ==> r.value == args[0].block.Contents()[args[1].i - 1]
  {
    var req :- CheckIndex(args);
    var (a, index) := req;
    var b := a.Get(index);
    return Ok(b);
  }

  /** `getsize(a)`: the element count the block was created with. */
  function GetSize(args: seq<Value<NumArray>>): (r: Result<nat>)
    ensures r.Ok? <==> |args| >= 1 && args[0].Userdata?
    ensures r.Ok? ==> r.value == args[0].block.size
    ensures r.Err? ==> r.error == ArgError(1, ARRAY_EXCEPTION)
  {
    match ToUserdata(args, 1)
    case None => Err(ArgError(1, ARRAY_EXCEPTION))
    case Some(a) => Ok(a.size)
  }

  // ---------------------------------------------------------------------------
  // As written: the index is narrowed to a 32-bit int before the range check

  /** C's conversion of a `lua_Integer` to a 32-bit `int` on a two's-complement
      target: the value modulo 2^32, read as signed. */
  function ToInt32(x: int): (r: int)
    ensures -0x8000_0000 <= r < 0x8000_0000
    ensures (x - r) % 0x1_0000_0000 == 0
  {
    var m := x % 0x1_0000_0000;
    if m < 0x8000_0000 then m else m - 0x1_0000_0000
  }

  /** The 0-based index as `setarray` and `getarray` compute it:
      `(int) luaL_checkinteger(L, 2) - 1`. */
  function IndexAsWritten(i: int): int
  {
    ToInt32(i) - 1
  }

  /** On a block of size 1, the 1-based index 2^32 + 1 is out of range, yet the
      narrowed index is 0 and passes the range check, so the call reads or
      writes element 1 instead of failing. */
  lemma NarrowedIndexPassesCheck()
    ensures var i, size := 0x1_0000_0001, 1;
      !(1 <= i <= size) && 0 <= IndexAsWritten(i) < size
  {
  }
}
