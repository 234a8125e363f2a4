/** The string-driven ABI encoder (chain/abi.go) and its agreement with the type grammar.

    The functions dispatch on type strings exactly as the source does.  `EncodeArgsLoop` is the
    two-pass loop that lays out heads and tails.  The main results: on every supported type the
    string encoder computes the encoding of the grammar, so a decoder gets the arguments back. */
module AbiEncoder {
  import opened Options
  import opened Sequences
  import opened Numerals
  import opened IntText
  import opened AbiTypes
  import opened AbiWords
  import opened AbiCodec

  // ----- dispatch on type strings -----

  /** A decimal number after a fixed prefix, as the anchored regular expressions read it. */
  function NumberAfter(p: string, s: string): (r: Option<nat>) {
    if HasPrefix(s, p) && AllDigits(s[|p|..]) then Some(Number(s[|p|..])) else None
  }

  /** The single-word types; "uint256" and "int256" are the N = 256 cases of their patterns. */
  function ParseWordType(s: string): (r: Option<Ty>)
    ensures r.Some? ==> WordType(r.value)
  {
    if s == "address" then Some(Address)
    else if s == "bool" then Some(Bool)
    else if NumberAfter("uint", s).Some? then Some(Uint(NumberAfter("uint", s).value))
    else if NumberAfter("int", s).Some? then Some(Int(NumberAfter("int", s).value))
    else if NumberAfter("bytes", s).Some? then Some(FixedBytes(NumberAfter("bytes", s).value))
    else None
  }

  function EncodeStatic(s: string, a: Arg): (r: Result<seq<byte>>)
    decreases a, 2
  {
    var w := ParseWordType(s);
    if w.Some? then EncodeWord(w.value, a)
    else
      var m := ParseFixedArray(s);
      if m.Some? && IsDynamic(m.value.0).None? then Crash
      else if m.Some? && IsDynamic(m.value.0) == Some(false) then EncodeFixed(m.value.0, m.value.1, a)
      else if HasPrefix(s, "(") then EncodeTuple(s, a)
      else Fail
  }

  function EncodeDynamic(s: string, a: Arg): (r: Result<seq<byte>>)
    decreases a, 2
  {
    if s == "bytes" || s == "string" then EncodeBlob(a)
    else if HasSuffix(s, "[]") then EncodeArray(s[..|s| - 2], a)
    else
      var m := ParseFixedArray(s);
      if m.Some? then EncodeFixed(m.value.0, m.value.1, a)
      else if HasPrefix(s, "(") then EncodeTuple(s, a)
      else Fail
  }

  function EncodeArray(elem: string, a: Arg): (r: Result<seq<byte>>)
    decreases a, 1
  {
    if !a.List? then Fail
    else
      var body := EncodeArgs(Repeat(elem, |a.items|), a.items);
      if body.Ok? then Ok(Word(|a.items|) + body.value) else body
  }

  function EncodeFixed(elem: string, size: nat, a: Arg): (r: Result<seq<byte>>)
    decreases a, 1
  {
    if !a.List? || |a.items| != size then Fail else EncodeArgs(Repeat(elem, size), a.items)
  }

  function EncodeTuple(s: string, a: Arg): (r: Result<seq<byte>>)
    decreases a, 1
  {
    if |s| < 2 then Crash
    else
      var types := SplitTopLevel(s[1..|s| - 1]);
      if !a.List? || |a.items| != |types| then Fail else EncodeArgs(types, a.items)
  }

  /** One argument of the first pass. */
  function PieceOf(s: string, a: Arg): (r: Result<Piece>)
    decreases a, 3
  {
    var d := IsDynamic(s);
    if d.None? then Crash
    else if d.value then
      var e := EncodeDynamic(s, a);
      if e.Ok? then Ok(InTail(e.value)) else if e.Fail? then Fail else Crash
    else
      var e := EncodeStatic(s, a);
      if e.Ok? then Ok(InHead(e.value)) else if e.Fail? then Fail else Crash
  }

  /** The first pass: stops at the first argument that fails. */
  function PiecesOf(types: seq<string>, args: seq<Arg>): (r: Result<seq<Piece>>)
    requires |types| == |args|
    ensures r.Ok? ==> |r.value| == |types|
    decreases args, 0, 0
  {
    if types == [] then Ok([])
    else
      var p := PieceOf(types[0], args[0]);
      if p.Ok? then Before([p.value], PiecesOf(types[1..], args[1..]))
      else if p.Fail? then Fail else Crash
  }

  function Before(ps: seq<Piece>, r: Result<seq<Piece>>): Result<seq<Piece>> {
    if r.Ok? then Ok(ps + r.value) else r
  }

  function EncodeArgs(types: seq<string>, args: seq<Arg>): (r: Result<seq<byte>>)
    requires |types| == |args|
    decreases args, 0, 1
  {
    var ps := PiecesOf(types, args);
    if ps.Ok? then Ok(Assemble(ps.value)) else if ps.Fail? then Fail else Crash
  }

  // ----- the two-pass loop -----

  /** Where the tail of component `i` starts in the frame. */
  function OffsetAt(ps: seq<Piece>, i: nat): (n: nat)
    requires i <= |ps|
  {
    HeadSize(ps) + |Tails(ps[..i])|
  }

  function HeadAt(ps: seq<Piece>, i: nat): (b: seq<byte>)
    requires i < |ps|
  {
    if ps[i].InTail? then Word(OffsetAt(ps, i)) else ps[i].bytes
  }

  lemma {:induction false} TailsConcat(ps: seq<Piece>, qs: seq<Piece>)
    ensures Tails(ps + qs) == Tails(ps) + Tails(qs)
  {
    if ps == [] {
      assert ps + qs == qs;
    } else {
      assert (ps + qs)[1..] == ps[1..] + qs;
      TailsConcat(ps[1..], qs);
    }
  }

  /** Every offset word is the position where its component's tail really starts. */
  lemma {:induction false} OffsetPointsAtTail(ps: seq<Piece>, i: nat)
    requires i < |ps| && ps[i].InTail?
    ensures OffsetAt(ps, i) + |ps[i].bytes| <= |Assemble(ps)|
    ensures Assemble(ps)[OffsetAt(ps, i)..OffsetAt(ps, i) + |ps[i].bytes|] == ps[i].bytes
  {
    var front, back := ps[..i], ps[i..];
    assert ps == front + back && back[0] == ps[i];
    TailsConcat(front, back);
    var x, y, z := Heads(ps, HeadSize(ps)) + Tails(front), ps[i].bytes, Tails(back[1..]);
    assert Assemble(ps) == x + (y + z) by {
      ConcatAssoc(Heads(ps, HeadSize(ps)), Tails(front), y + z);
    }
    DropFront(x, y + z);
    assert (x + (y + z))[|x|..|x| + |y|] == y;
  }

  lemma {:induction false} NextOffset(ps: seq<Piece>, i: nat)
    requires i < |ps|
    ensures OffsetAt(ps, i + 1) == OffsetAt(ps, i) + (if ps[i].InTail? then |ps[i].bytes| else 0)
  {
    assert ps[..i + 1] == ps[..i] + [ps[i]];
    TailsConcat(ps[..i], [ps[i]]);
    assert Tails([ps[i]]) == if ps[i].InTail? then ps[i].bytes else [];
  }

  lemma {:induction false} HeadsStep(ps: seq<Piece>, i: nat)
    requires i < |ps|
    ensures Heads(ps[i..], OffsetAt(ps, i)) == HeadAt(ps, i) + Heads(ps[i + 1..], OffsetAt(ps, i + 1))
  {
    NextOffset(ps, i);
    var qs := ps[i..];
    assert qs[0] == ps[i] && qs[1..] == ps[i + 1..];
    HeadsUnfold(qs, qs[1..], OffsetAt(ps, i), OffsetAt(ps, i + 1));
  }

  lemma {:induction false} HeadsUnfold(ps: seq<Piece>, rest: seq<Piece>, off: nat, next: nat)
    requires ps != [] && rest == ps[1..] && next == off + (if ps[0].InTail? then |ps[0].bytes| else 0)
    ensures Heads(ps, off) == (if ps[0].InTail? then Word(off) else ps[0].bytes) + Heads(rest, next)
  {
    var h, r := Heads(ps, off), Heads(rest, next);
    if ps[0].InTail? {
      assert h == Word(off) + r;
    } else {
      assert h == ps[0].bytes + r;
    }
  }

  /** The head area is the heads one after the other, offsets included. */
  lemma {:induction false} HeadsAreFlat(ps: seq<Piece>, i: nat, bs: seq<seq<byte>>)
    requires i <= |ps| == |bs|
    requires forall j :: i <= j < |ps| ==> bs[j] == HeadAt(ps, j)
    ensures Heads(ps[i..], OffsetAt(ps, i)) == Flatten(bs[i..])
    decreases |ps| - i
  {
    if i < |ps| {
      HeadsAreFlat(ps, i + 1, bs);
      HeadsStep(ps, i);
      assert bs[i..] == [bs[i]] + bs[i + 1..];
      FlattenCons(bs[i], bs[i + 1..]);
    }
  }

  /** heads[i] and tails[i] as the first pass leaves them. */
  ghost predicate FirstPass(ps: seq<Piece>, heads: seq<seq<byte>>, tails: seq<Option<seq<byte>>>) {
    && |heads| == |tails| == |ps|
    && forall i :: 0 <= i < |ps| ==>
         if ps[i].InTail? then tails[i] == Some(ps[i].bytes) else tails[i] == None && heads[i] == ps[i].bytes
  }

  ghost predicate AnyTail(ps: seq<Piece>) { exists i :: 0 <= i < |ps| && ps[i].InTail? }

  lemma {:induction false} AnyTailAppend(ps: seq<Piece>, p: Piece)
    ensures AnyTail(ps + [p]) <==> AnyTail(ps) || p.InTail?
  {
    var all := ps + [p];
    assert all[|ps|] == p && forall i :: 0 <= i < |ps| ==> all[i] == ps[i];
  }

  lemma {:induction false} NextPiece(types: seq<string>, args: seq<Arg>, i: nat, ps: seq<Piece>, p: Result<Piece>)
    requires i < |types| == |args| && p == PieceOf(types[i], args[i])
    ensures Before(ps, PiecesOf(types[i..], args[i..])) ==
      match p
      case Ok(piece) => Before(ps + [piece], PiecesOf(types[i + 1..], args[i + 1..]))
      case Fail => Fail
      case Crash => Crash
  {
    assert types[i..][1..] == types[i + 1..] && args[i..][1..] == args[i + 1..];
    var rest := PiecesOf(types[i + 1..], args[i + 1..]);
    if p.Ok? && rest.Ok? {
      ConcatAssoc(ps, [p.value], rest.value);
    }
  }

  method EncodeEach(types: seq<string>, args: seq<Arg>)
      returns (r: Result<bool>, heads: seq<seq<byte>>, tails: seq<Option<seq<byte>>>)
    requires |types| == |args|
    ensures r.Ok? ==> PiecesOf(types, args).Ok?
    ensures r.Ok? ==> FirstPass(PiecesOf(types, args).value, heads, tails)
    ensures r.Ok? ==> (r.value <==> AnyTail(PiecesOf(types, args).value))
    ensures !r.Ok? ==> PiecesOf(types, args) == if r.Fail? then Fail else Crash
  {
    heads, tails := [], [];
    var hasDynamic := false;
    ghost var ps: seq<Piece> := [];
    assert types[0..] == types && args[0..] == args;
    assert PiecesOf(types, args).Ok? ==> [] + PiecesOf(types, args).value == PiecesOf(types, args).value;
    for i := 0 to |types|
      invariant |heads| == i && FirstPass(ps, heads, tails)
      invariant PiecesOf(types, args) == Before(ps, PiecesOf(types[i..], args[i..]))
      invariant hasDynamic <==> AnyTail(ps)
    {
      ghost var p := PieceOf(types[i], args[i]);
      NextPiece(types, args, i, ps, p);
      var dynamic := IsDynamic(types[i]);
      if dynamic.None? {
        return Crash, heads, tails;
      }
      if dynamic.value {
        hasDynamic := true;
        var encoded := EncodeDynamic(types[i], args[i]);
        if !encoded.Ok? {
          return if encoded.Fail? then Fail else Crash, heads, tails;
        }
        assert (heads + [[]])[..i] == heads && (tails + [Some(encoded.value)])[..i] == tails;
        heads, tails := heads + [[]], tails + [Some(encoded.value)];
      } else {
        var word := EncodeStatic(types[i], args[i]);
        if !word.Ok? {
          return if word.Fail? then Fail else Crash, heads, tails;
        }
        assert (heads + [word.value])[..i] == heads && (tails + [None])[..i] == tails;
        heads, tails := heads + [word.value], tails + [None];
      }
      AnyTailAppend(ps, p.value);
      ps := ps + [p.value];
    }
    assert types[|types|..] == [] && args[|types|..] == [] && ps + [] == ps;
    r := Ok(hasDynamic);
  }

  lemma {:induction false} HeadSizeOfPrefix(ps: seq<Piece>, i: nat)
    requires i < |ps|
    ensures HeadSize(ps[..i + 1]) == HeadSize(ps[..i]) + (if ps[i].InTail? then 32 else |ps[i].bytes|)
    decreases i
  {
    if i > 0 {
      HeadSizeOfPrefix(ps[1..], i - 1);
      assert ps[..i + 1][1..] == ps[1..][..i] && ps[..i][1..] == ps[1..][..i - 1];
    }
  }

  /** Second pass, first loop: the size of the head area. */
  method MeasureHeads(ghost ps: seq<Piece>, heads: seq<seq<byte>>, tails: seq<Option<seq<byte>>>) returns (headSize: nat)
    requires FirstPass(ps, heads, tails)
    ensures headSize == HeadSize(ps)
  {
    headSize := 0;
    for i := 0 to |tails|
      invariant headSize == HeadSize(ps[..i])
    {
      HeadSizeOfPrefix(ps, i);
      if tails[i].Some? {
        headSize := headSize + 32;
      } else {
        headSize := headSize + |heads[i]|;
      }
    }
    assert ps[..|tails|] == ps;
  }

  /** Second pass, second loop: fill each dynamic head with the running tail offset. */
  method FillOffsets(ghost ps: seq<Piece>, before: seq<seq<byte>>, tails: seq<Option<seq<byte>>>, headSize: nat)
      returns (heads: seq<seq<byte>>)
    requires FirstPass(ps, before, tails) && headSize == HeadSize(ps)
    ensures |heads| == |ps| && forall j :: 0 <= j < |ps| ==> heads[j] == HeadAt(ps, j)
  {
    heads := before;
    var tailOffset := headSize;
    assert ps[..0] == [];
    for i := 0 to |tails|
      invariant |heads| == |ps| && tailOffset == OffsetAt(ps, i)
      invariant forall j :: 0 <= j < i ==> heads[j] == HeadAt(ps, j)
      invariant forall j :: i <= j < |ps| ==> heads[j] == before[j]
    {
      NextOffset(ps, i);
      if tails[i].Some? {
        heads := heads[i := Word(tailOffset)];
        tailOffset := tailOffset + |tails[i].value|;
      }
    }
  }

  lemma {:induction false} HeadArea(ps: seq<Piece>, heads: seq<seq<byte>>)
    requires |heads| == |ps| && forall i :: 0 <= i < |ps| ==> heads[i] == HeadAt(ps, i)
    ensures Flatten(heads) == Heads(ps, HeadSize(ps))
  {
    HeadsAreFlat(ps, 0, heads);
    assert heads[0..] == heads && ps[0..] == ps && ps[..0] == [];
  }

  method AppendHeads(heads: seq<seq<byte>>) returns (result: seq<byte>)
    ensures result == Flatten(heads)
  {
    result := [];
    for i := 0 to |heads|
      invariant result == Flatten(heads[..i])
    {
      assert heads[..i + 1][..i] == heads[..i];
      result := result + heads[i];
    }
    assert heads[..|heads|] == heads;
  }

  method AppendTails(ghost ps: seq<Piece>, front: seq<byte>, tails: seq<Option<seq<byte>>>) returns (result: seq<byte>)
    requires |tails| == |ps|
    requires forall i :: 0 <= i < |ps| ==> tails[i] == if ps[i].InTail? then Some(ps[i].bytes) else None
    ensures result == front + Tails(ps)
  {
    result := front;
    for i := 0 to |tails|
      invariant result == front + Tails(ps[..i])
    {
      assert ps[..i + 1] == ps[..i] + [ps[i]];
      TailsConcat(ps[..i], [ps[i]]);
      assert Tails([ps[i]]) == if ps[i].InTail? then ps[i].bytes else [];
      if tails[i].Some? {
        ConcatAssoc(front, Tails(ps[..i]), tails[i].value);
        result := result + tails[i].value;
      }
    }
    assert ps[..|ps|] == ps;
  }

  lemma {:induction false} NoTails(ps: seq<Piece>)
    requires forall i :: 0 <= i < |ps| ==> ps[i].InHead?
    ensures Tails(ps) == []
  {
    if ps != [] {
      NoTails(ps[1..]);
    }
  }

  /** encodeArgs: the two-pass loop computes the recursive head/tail specification. */
  method EncodeArgsLoop(types: seq<string>, args: seq<Arg>) returns (r: Result<seq<byte>>)
    requires |types| == |args|
    ensures r == EncodeArgs(types, args)
  {
    var hasDynamic, heads, tails := EncodeEach(types, args);
    if !hasDynamic.Ok? {
      return if hasDynamic.Fail? then Fail else Crash;
    }
    ghost var ps := PiecesOf(types, args).value;
    var result;
    if !hasDynamic.value {
      HeadArea(ps, heads);
      NoTails(ps);
      result := AppendHeads(heads);
      assert result + [] == result;
    } else {
      var headSize := MeasureHeads(ps, heads, tails);
      heads := FillOffsets(ps, heads, tails, headSize);
      HeadArea(ps, heads);
      result := AppendHeads(heads);
      result := AppendTails(ps, result, tails);
    }
    return Ok(result);
  }

  // ----- agreement with the grammar -----

  lemma {:induction false} NumberAfterBack(p: string, n: nat)
    requires n > 0
    ensures NumberAfter(p, p + Decimal(n)) == Some(n)
  {
    NumberOfDecimal(n);
    DropFront(p, Decimal(n));
  }

  lemma {:induction false} NoNumberAfter(p: string, s: string, i: nat)
    requires i < |p| && i < |s| && s[i] != p[i]
    ensures NumberAfter(p, s) == None
  {
    if |p| <= |s| {
      assert s[..|p|][i] == s[i];
    }
  }

  /** A printed single-word type is recognised as itself. */
  lemma {:induction false} WordTypeBack(t: Ty)
    requires WellFormed(t) && WordType(t)
    ensures ParseWordType(Render(t)) == Some(t)
  {
    var s := Render(t);
    match t
    case Uint(b) =>
      NumberAfterBack("uint", b);
      assert s[0] == 'u';
    case Int(b) =>
      NumberAfterBack("int", b);
      assert s[0] == 'i';
      NoNumberAfter("uint", s, 0);
    case FixedBytes(n) =>
      NumberAfterBack("bytes", n);
      assert s[0] == 'b' && s[1] == 'y';
      NoNumberAfter("uint", s, 0);
      NoNumberAfter("int", s, 0);
    case _ =>
  }

  /** Nothing that ends in a bracket is a single-word type. */
  lemma {:induction false} NotWordType(s: string)
    requires s != [] && (s[|s| - 1] == ']' || s[|s| - 1] == ')')
    ensures ParseWordType(s) == None
  {
    assert "address"[6] == 's' && "bool"[3] == 'l';
    forall p: string | HasPrefix(s, p) && |p| < |s| ensures !AllDigits(s[|p|..]) {
      assert s[|p|..][|s| - |p| - 1] == s[|s| - 1];
    }
    assert forall p: string :: HasPrefix(s, p) && |p| == |s| ==> s[|p|..] == [];
  }

  lemma {:induction false} RepRender(e: Ty, n: nat)
    ensures RenderAll(Repeat(e, n)) == Repeat(Render(e), n)
  {
  }

  /** A static type string encodes as the grammar says. */
  lemma {:induction false} StaticAgrees(t: Ty, a: Arg)
    requires WellFormed(t) && Supported(t) && !Dynamic(t)
    ensures EncodeStatic(Render(t), a) == Encode(t, a)
    decreases a, 1
  {
    var s := Render(t);
    match t
    case FixedArray(e, n) =>
      NotWordType(s);
      FixedArrayRecognised(e, n);
      IsDynamicAgrees(e);
      FixedAgrees(e, n, a);
    case Tuple(ts) =>
      NotWordType(s);
      NotFixedTuple(ts);
      TupleAgrees(ts, a);
    case _ =>
      WordTypeBack(t);
      EncodeWordAccepts(t, a);
  }

  lemma {:induction false} DynamicAgrees(t: Ty, a: Arg)
    requires WellFormed(t) && Supported(t) && Dynamic(t)
    ensures EncodeDynamic(Render(t), a) == Encode(t, a)
    decreases a, 1
  {
    match t
    case Array(e) =>
      ArrayDispatch(Render(t), Render(e), a);
      ArrayAgrees(e, a);
    case FixedArray(e, n) =>
      FixedIsNotArraySuffix(e, n);
      FixedArrayRecognised(e, n);
      FixedAgrees(e, n, a);
    case Tuple(ts) =>
      TupleIsNotArraySuffix(ts);
      NotFixedTuple(ts);
      TupleAgrees(ts, a);
    case _ =>
  }

  lemma {:induction false} ArrayDispatch(s: string, u: string, a: Arg)
    requires s == u + "[]"
    ensures EncodeDynamic(s, a) == EncodeArray(u, a)
  {
    ArraySuffix(u);
    assert s[..|s| - 2] == u;
    assert s[|s| - 1] == ']' && "bytes"[4] == 's' && "string"[5] == 'g';
  }

  lemma {:induction false} ArrayAgrees(e: Ty, a: Arg)
    requires WellFormed(e) && Supported(e)
    ensures EncodeArray(Render(e), a) == Encode(Array(e), a)
    decreases a, 0
  {
    if a.List? {
      RepRender(e, |a.items|);
      ArgsAgree(Repeat(e, |a.items|), a.items);
    }
  }

  lemma {:induction false} FixedAgrees(e: Ty, n: nat, a: Arg)
    requires WellFormed(e) && Supported(e)
    ensures EncodeFixed(Render(e), n, a) == Encode(FixedArray(e, n), a)
    decreases a, 0
  {
    if a.List? && |a.items| == n {
      RepRender(e, n);
      ArgsAgree(Repeat(e, n), a.items);
    }
  }

  lemma {:induction false} TupleAgrees(ts: seq<Ty>, a: Arg)
    requires ts != [] && forall i :: 0 <= i < |ts| ==> WellFormed(ts[i]) && Supported(ts[i])
    ensures HasPrefix(Render(Tuple(ts)), "(")
    ensures EncodeTuple(Render(Tuple(ts)), a) == Encode(Tuple(ts), a)
    decreases a, 0
  {
    TupleIsNotArraySuffix(ts);
    SplitJoin(ts);
    if a.List? && |a.items| == |ts| {
      ArgsAgree(ts, a.items);
    }
  }

  /** A list of printed types encodes as the grammar's list. */
  lemma {:induction false} ArgsAgree(ts: seq<Ty>, args: seq<Arg>)
    requires |ts| == |args|
    requires forall i :: 0 <= i < |ts| ==> WellFormed(ts[i]) && Supported(ts[i])
    ensures EncodeArgs(RenderAll(ts), args) == EncodeAll(ts, args)
    ensures PiecesOf(RenderAll(ts), args) == Pieces(ts, args)
    decreases args, 0
  {
    if ts != [] {
      var tail := ts[1..];
      PieceAgrees(ts[0], args[0]);
      assert RenderAll(ts)[1..] == RenderAll(tail);
      assert forall i :: 0 <= i < |tail| ==> tail[i] == ts[i + 1];
      ArgsAgree(tail, args[1..]);
      PiecesAccept(ts, args);
    }
  }

  lemma {:induction false} PieceAgrees(t: Ty, a: Arg)
    requires WellFormed(t) && Supported(t)
    ensures PieceOf(Render(t), a) ==
      if !Encode(t, a).Ok? then Fail
      else Ok(if Dynamic(t) then InTail(Encode(t, a).value) else InHead(Encode(t, a).value))
    decreases a, 2
  {
    IsDynamicAgrees(t);
    EncodeAccepts(t, a);
    if Dynamic(t) {
      DynamicAgrees(t, a);
    } else {
      StaticAgrees(t, a);
    }
  }
}
