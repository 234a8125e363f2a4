/** How long an ABI encoding is (chain/abi.go).

    Reading an encoding back does not see bytes that nothing refers to.  Its length is therefore
    stated on its own, from type and argument: one word per static value and offset, and the tails. */
module AbiSize {
  import opened Sequences
  import opened Numerals
  import opened AbiTypes
  import opened AbiWords
  import opened AbiCodec

  function SizeOf(t: Ty, a: Arg): (n: nat)
    decreases a, 1
  {
    match t
    case Bytes => if a.Blob? then 32 + (|a.bytes| + 31) / 32 * 32 else 0
    case Text => if a.Blob? then 32 + (|a.bytes| + 31) / 32 * 32 else 0
    case Array(e) => if a.List? then 32 + SizeAll(Repeat(e, |a.items|), a.items) else 0
    case FixedArray(e, n) => if a.List? && |a.items| == n then SizeAll(Repeat(e, n), a.items) else 0
    case Tuple(ts) => if a.List? && |a.items| == |ts| then SizeAll(ts, a.items) else 0
    case _ => 32
  }

  function SizeAll(ts: seq<Ty>, args: seq<Arg>): (n: nat)
    requires |ts| == |args|
    decreases args, 0
  {
    if ts == [] then 0
    else (if Dynamic(ts[0]) then 32 else 0) + SizeOf(ts[0], args[0]) + SizeAll(ts[1..], args[1..])
  }

  lemma {:induction false} BlobSize(a: Arg)
    requires a.Blob?
    ensures |EncodeBlob(a).value| == 32 + (|a.bytes| + 31) / 32 * 32
  {
  }

  /** An encoding has exactly the bytes its parts need: nothing is left out and nothing added. */
  lemma {:induction false} EncodedSize(t: Ty, a: Arg)
    requires Encode(t, a).Ok?
    ensures |Encode(t, a).value| == SizeOf(t, a)
    decreases a, 1
  {
    match t
    case Bytes => BlobSize(a);
    case Text => BlobSize(a);
    case Array(e) => AllSize(Repeat(e, |a.items|), a.items);
    case FixedArray(e, n) => AllSize(Repeat(e, n), a.items);
    case Tuple(ts) => AllSize(ts, a.items);
    case _ =>
  }

  lemma {:induction false} AllSize(ts: seq<Ty>, args: seq<Arg>)
    requires |ts| == |args| && EncodeAll(ts, args).Ok?
    ensures |EncodeAll(ts, args).value| == SizeAll(ts, args)
    decreases args, 0, 1
  {
    PiecesSize(ts, args);
  }

  lemma {:induction false} PiecesSize(ts: seq<Ty>, args: seq<Arg>)
    requires |ts| == |args| && Pieces(ts, args).Ok?
    ensures HeadSize(Pieces(ts, args).value) + |Tails(Pieces(ts, args).value)| == SizeAll(ts, args)
    decreases args, 0, 0
  {
    if ts != [] {
      var qs := PiecesSplit(ts, args);
      EncodedSize(ts[0], args[0]);
      PiecesSize(ts[1..], args[1..]);
      OnePieceMore(Pieces(ts, args).value, qs);
    }
  }

  lemma {:induction false} OnePieceMore(ps: seq<Piece>, qs: seq<Piece>)
    requires ps != [] && qs == ps[1..]
    ensures HeadSize(ps) + |Tails(ps)|
         == (if ps[0].InTail? then 32 else 0) + |ps[0].bytes| + HeadSize(qs) + |Tails(qs)|
  {
  }
}
