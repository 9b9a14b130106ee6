/** The string split library: `split(s, sep)` cuts s at every occurrence of the
    first byte of sep and returns the pieces as a sequential table with
    keys 1, 2, 3, ... */
module Split {
  import opened Lua

  // ---------------------------------------------------------------------------
  // What the C code sees of a string

  /** The part of a string that `strchr` and `lua_pushstring` see: everything
      before the first NUL byte. */
  function CString(s: Bytes): (c: Bytes)
    ensures c <= s
    ensures '\0' !in c
    ensures |c| < |s| ==> s[|c|] == '\0'
  {
    if |s| == 0 || s[0] == '\0' then [] else [s[0]] + CString(s[1..])
  }

  /** A string without NUL bytes is seen whole. */
  lemma {:induction false} PlainCString(s: Bytes)
    requires '\0' !in s
    ensures CString(s) == s
  {
    if |s| > 0 {
      assert s == [s[0]] + s[1..];
      PlainCString(s[1..]);
    }
  }

  /** `strchr(s, d)` for a non-NUL d, as an offset into s: the first position
      holding d, or None when s holds no d. */
  function Find(s: Bytes, d: Byte): (r: Option<nat>)
    ensures r.Some? ==> r.value < |s| && s[r.value] == d && d !in s[..r.value]
    ensures r.None? ==> d !in s
  {
    if |s| == 0 then None
    else if s[0] == d then Some(0)
    else match Find(s[1..], d)
      case None => None
      case Some(k) => Some(k + 1)
  }

  // ---------------------------------------------------------------------------
  // The pieces, as a specification

  /** The pieces of s between occurrences of d, in order: the text before the
      first d, then the pieces of the text after it; a string with no d is one
      piece. */
  function Pieces(s: Bytes, d: Byte): (ps: seq<Bytes>)
    ensures |ps| >= 1
    decreases |s|
  {
    match Find(s, d)
    case None => [s]
    case Some(e) => [s[..e]] + Pieces(s[e + 1..], d)
  }

  /** The pieces written out in order with d between neighbours. */
  function Join(ps: seq<Bytes>, d: Byte): Bytes
  {
    if |ps| == 0 then ""
    else if |ps| == 1 then ps[0]
    else ps[0] + [d] + Join(ps[1..], d)
  }

  /** Joining the pieces with the delimiter gives back the string. */
  lemma {:induction false} JoinPieces(s: Bytes, d: Byte)
    ensures Join(Pieces(s, d), d) == s
    decreases |s|
  {
    match Find(s, d)
    case None =>
    case Some(e) =>
      var rest := Pieces(s[e + 1..], d);
      JoinPieces(s[e + 1..], d);
      assert Pieces(s, d) == [s[..e]] + rest;
      assert ([s[..e]] + rest)[1..] == rest;
      assert s == s[..e] + [d] + s[e + 1..];
  }

  /** In a string whose first piece p holds no d, the first d is the one right
      after p. */
  lemma FindAfterPiece(p: Bytes, d: Byte, rest: Bytes)
    requires d !in p
    ensures Find(p + [d] + rest, d) == Some(|p|)
  {
    var s := p + [d] + rest;
    assert s[..|p|] == p;
    assert s[|p|] == d;
  }

  /** Cutting the join of d-free pieces gives back the pieces: Pieces and Join
      are inverse to each other. */
  lemma {:induction false} PiecesOfJoin(ps: seq<Bytes>, d: Byte)
    requires |ps| >= 1
    requires forall j :: 0 <= j < |ps| ==> d !in ps[j]
    ensures Pieces(Join(ps, d), d) == ps
    decreases |ps|
  {
    if |ps| == 1 {
      assert Find(ps[0], d) == None;
    } else {
      var rest := Join(ps[1..], d);
      FindAfterPiece(ps[0], d, rest);
      var s := ps[0] + [d] + rest;
      assert s[..|ps[0]|] == ps[0];
      assert s[|ps[0]| + 1..] == rest;
      PiecesOfJoin(ps[1..], d);
      assert ps == [ps[0]] + ps[1..];
    }
  }

  /** No piece holds the delimiter. */
  lemma {:induction false} PiecesAreFree(s: Bytes, d: Byte)
    ensures forall j :: 0 <= j < |Pieces(s, d)| ==> d !in Pieces(s, d)[j]
    decreases |s|
  {
    match Find(s, d)
    case None =>
    case Some(e) =>
      PiecesAreFree(s[e + 1..], d);
      var rest := Pieces(s[e + 1..], d);
      assert Pieces(s, d) == [s[..e]] + rest;
      forall j | 0 <= j < |Pieces(s, d)|
        ensures d !in Pieces(s, d)[j]
      {
        if j > 0 {
          assert Pieces(s, d)[j] == rest[j - 1];
        }
      }
  }

  /** There is one piece more than there are delimiters in s. */
  lemma {:induction false} PieceCount(s: Bytes, d: Byte)
    ensures |Pieces(s, d)| == multiset(s)[d] + 1
    decreases |s|
  {
    match Find(s, d)
    case None =>
      assert multiset(s)[d] == 0;
    case Some(e) =>
      PieceCount(s[e + 1..], d);
      assert s == s[..e] + [d] + s[e + 1..];
      assert multiset(s) == multiset(s[..e]) + multiset([d]) + multiset(s[e + 1..]);
      assert multiset(s[..e])[d] == 0;
  }

  /** The first piece of s is the text before the first d; the rest are the
      pieces of the text after it. */
  lemma PiecesStep(s: Bytes, d: Byte, e: nat)
    requires Find(s, d) == Some(e)
    ensures Pieces(s, d) == [s[..e]] + Pieces(s[e + 1..], d)
  {
  }

  /** Cutting the first piece off the unsplit rest moves it to the pieces done. */
  lemma CutPiece(done: seq<Bytes>, rest: Bytes, d: Byte, e: nat)
    requires Find(rest, d) == Some(e)
    ensures done + Pieces(rest, d) == (done + [rest[..e]]) + Pieces(rest[e + 1..], d)
  {
    PiecesStep(rest, d, e);
  }

  /** A rest with no d is the last piece. */
  lemma PiecesLast(done: seq<Bytes>, rest: Bytes, d: Byte)
    requires Find(rest, d) == None
    ensures done + Pieces(rest, d) == done + [rest]
  {
  }

  /** A d-free text followed by d is the first piece of what follows it. */
  lemma CutAt(p: Bytes, d: Byte, rest: Bytes)
    requires d !in p
    ensures Pieces(p + [d] + rest, d) == [p] + Pieces(rest, d)
  {
    var s := p + [d] + rest;
    FindAfterPiece(p, d, rest);
    PiecesStep(s, d, |p|);
    assert s[..|p|] == p;
    assert s[|p| + 1..] == rest;
  }

  /** Adjacent delimiters give an empty piece between them, as in "a,b,,c"
      splitting into "a", "b", "" and "c". */
  lemma AdjacentDelimiters(a: Byte, b: Byte, c: Byte, d: Byte)
    requires a != d && b != d && c != d
    ensures Pieces([a, d, b, d, d, c], d) == [[a], [b], [], [c]]
  {
    assert Find([c], d) == None;
    CutAt([], d, [c]);
    assert [d, c] == [] + [d] + [c];
    CutAt([b], d, [d, c]);
    assert [b, d, d, c] == [b] + [d] + [d, c];
    CutAt([a], d, [b, d, d, c]);
    assert [a, d, b, d, d, c] == [a] + [d] + [b, d, d, c];
  }

  /** A leading and a trailing delimiter give an empty first and last piece, as
      in ",a," splitting into "", "a" and "". */
  lemma OuterDelimiters(a: Byte, d: Byte)
    requires a != d
    ensures Pieces([d, a, d], d) == [[], [a], []]
  {
    assert Find([], d) == None;
    CutAt([a], d, []);
    assert [a, d] == [a] + [d] + [];
    CutAt([], d, [a, d]);
    assert [d, a, d] == [] + [d] + [a, d];
  }

  /** The empty string is one empty piece. */
  lemma EmptyString(d: Byte)
    ensures Pieces("", d) == [""]
  {
  }

  // ---------------------------------------------------------------------------
  // The library function

  /** The sequential table holding ps: key j (from 1) maps to ps[j - 1]. */
  function Table(ps: seq<Bytes>): (t: map<int, Bytes>)
    ensures forall j :: j in t <==> 1 <= j <= |ps|
  {
    if |ps| == 0 then map[] else Table(ps[..|ps| - 1])[|ps| := ps[|ps| - 1]]
  }

  /** Storing the next piece at the next key extends the table by that piece. */
  lemma TableAppend(ps: seq<Bytes>, p: Bytes)
    ensures Table(ps)[|ps| + 1 := p] == Table(ps + [p])
  {
    assert (ps + [p])[..|ps|] == ps;
  }

  /** Key j of the table holds the j-th piece. */
  lemma {:induction false} TableLookup(ps: seq<Bytes>)
    ensures forall j :: 1 <= j <= |ps| ==> Table(ps)[j] == ps[j - 1]
  {
    if |ps| > 0 {
      var init := ps[..|ps| - 1];
      TableLookup(init);
      forall j | 1 <= j < |ps|
        ensures Table(ps)[j] == ps[j - 1]
      {
        assert init[j - 1] == ps[j - 1];
      }
    }
  }

  /** `split(s, sep)`: both arguments must be strings, checked before the table
      is made; the result is one table whose keys are exactly 1..k, key j
      holding the j-th piece of s cut at the first byte of sep. */
  method SplitLib<U>(args: seq<Value<U>>) returns (r: Result<map<int, Bytes>>)
    requires CheckString(args, 1).Ok? && CheckString(args, 2).Ok? ==> CString(args[1].s) != []
    ensures CheckString(args, 1).Err? ==> r == Err(CheckString(args, 1).error)
    ensures CheckString(args, 1).Ok? && CheckString(args, 2).Err? ==> r == Err(CheckString(args, 2).error)
    ensures CheckString(args, 1).Ok? && CheckString(args, 2).Ok? ==>
              r.Ok? &&
              var ps := Pieces(CString(args[0].s), CString(args[1].s)[0]);
              (forall j :: j in r.value <==> 1 <= j <= |ps|) &&
              (forall j :: 1 <= j <= |ps| ==> r.value[j] == ps[j - 1])
  {
    var s :- CheckString(args, 1);
    var sep :- CheckString(args, 2);
    var d := CString(sep)[0];
    ghost var ps := Pieces(CString(s), d);
    assert s == args[0].s && sep == args[1].s;
    var rest := CString(s);
    ghost var done: seq<Bytes> := [];
    var t: map<int, Bytes> := map[];
    var i := 1;
    var e := Find(rest, d);
    while e.Some?
      invariant i == |done| + 1
      invariant done + Pieces(rest, d) == ps
      invariant t == Table(done)
      invariant e == Find(rest, d)
      decreases |rest|
    {
      var piece := rest[..e.value];
      CutPiece(done, rest, d, e.value);
      TableAppend(done, piece);
      t := t[i := piece];
      i := i + 1;
      done := done + [piece];
      rest := rest[e.value + 1..];
      e := Find(rest, d);
    }
    PiecesLast(done, rest, d);
    TableAppend(done, rest);
    t := t[i := rest];
    done := done + [rest];
    assert done == ps;
    TableLookup(ps);
    return Ok(t);
  }
}
