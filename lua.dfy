/** The part of the interpreter's native-call boundary that the two libraries use:
    the values a native function receives as arguments, the argument error it can
    raise, and the auxiliary-library checks and conversions it applies to them. */
module Lua {

  datatype Option<+T> = None | Some(value: T)

  /** One byte of a string. Strings of the interpreter are byte strings, and
      the C code compares and cuts them byte by byte. */
  type Byte = c: char | c as int < 256 witness '\0'

  /** The contents of a string value. */
  type Bytes = seq<Byte>

  /** One argument of a native call. `U` is the native block that a full userdata
      carries (the boolean array, for the array library). */
  datatype Value<U> =
    | Nil
    | Boolean(b: bool)
    | Integer(i: int)
    | Str(s: Bytes)
    | Table
    | Function
    | Userdata(block: U)

  /** An argument error: the 1-based position of the offending argument and the
      message the check reports for it. */
  datatype Error = ArgError(arg: nat, msg: string)

  /** What a native function produces: its results, or the argument error that
      stopped it. Failure-compatible, so `:-` propagates the error. */
  datatype Result<+T> = Ok(value: T) | Err(error: Error) {
    predicate IsFailure() { Err? }

    function PropagateFailure<V>(): Result<V>
      requires Err?
    {
      Err(error)
    }

    function Extract(): T
      requires Ok?
    {
      value
    }
  }

  /** The argument at 1-based position k, or None when the caller passed fewer
      arguments (the interpreter's "no value", distinct from an explicit nil). */
  function Arg<U>(args: seq<Value<U>>, k: nat): Option<Value<U>>
    requires k >= 1
  {
    if k <= |args| then Some(args[k - 1]) else None
  }

  /** The type name an argument error quotes for an argument. */
  function TypeName<U>(a: Option<Value<U>>): string
  {
    match a
    case None => "no value"
    case Some(Nil) => "nil"
    case Some(Boolean(_)) => "boolean"
    case Some(Integer(_)) => "number"
    case Some(Str(_)) => "string"
    case Some(Table) => "table"
    case Some(Function) => "function"
    case Some(Userdata(_)) => "userdata"
  }

  /** `luaL_checkinteger`: the integer at position k, or an argument error. */
  function CheckInteger<U>(args: seq<Value<U>>, k: nat): (r: Result<int>)
    requires k >= 1
    ensures r.Ok? <==> k <= |args| && args[k - 1].Integer?
    ensures r.Ok? ==> r.value == args[k - 1].i
  {
    match Arg(args, k)
    case Some(Integer(i)) => Ok(i)
    case a => Err(ArgError(k, "number expected, got " + TypeName(a)))
  }

  /** `luaL_checkstring`: the string at position k, or an argument error. */
  function CheckString<U>(args: seq<Value<U>>, k: nat): (r: Result<Bytes>)
    requires k >= 1
    ensures r.Ok? <==> k <= |args| && args[k - 1].Str?
    ensures r.Ok? ==> r.value == args[k - 1].s
  {
    match Arg(args, k)
    case Some(Str(s)) => Ok(s)
    case a => Err(ArgError(k, "string expected, got " + TypeName(a)))
  }

  /** `luaL_checkany`: any value, nil included, but not a missing argument. */
  function CheckAny<U>(args: seq<Value<U>>, k: nat): (r: Result<()>)
    requires k >= 1
    ensures r.Ok? <==> k <= |args|
  {
    if Arg(args, k).Some? then Ok(()) else Err(ArgError(k, "value expected"))
  }

  /** `lua_touserdata`: the block of a userdata argument, None (NULL) otherwise. */
  function ToUserdata<U>(args: seq<Value<U>>, k: nat): (r: Option<U>)
    requires k >= 1
    ensures r.Some? <==> k <= |args| && args[k - 1].Userdata?
    ensures r.Some? ==> r.value == args[k - 1].block
  {
    match Arg(args, k)
    case Some(Userdata(u)) => Some(u)
    case _ => None
  }

  /** `lua_toboolean`: only nil, false and a missing argument are false. */
  predicate ToBoolean<U>(args: seq<Value<U>>, k: nat)
    requires k >= 1
    ensures ToBoolean(args, k) <==> k <= |args| && args[k - 1] != Nil && args[k - 1] != Boolean(false)
  {
    match Arg(args, k)
    case None => false
    case Some(Nil) => false
    case Some(Boolean(b)) => b
    case Some(_) => true
  }
}
