/** The ABI encoding on the type grammar, a decoder for it, and their round trip.

    The encoder side follows the head/tail layout of chain/abi.go; the decoder is written from
    the "Formal Specification of the Encoding" in the Solidity Contract ABI Specification: a
    dynamic component is found by following the offset in its head slot. */
module AbiCodec {
  import opened Options
  import opened Sequences
  import opened Numerals
  import opened AbiTypes
  import opened AbiWords

  // ----- head/tail layout -----

  /** One encoded component: inlined in the head, or in the tail behind an offset. */
  datatype Piece = InHead(bytes: seq<byte>) | InTail(bytes: seq<byte>)

  function HeadSize(ps: seq<Piece>): (n: nat) {
    if ps == [] then 0
    else (if ps[0].InTail? then 32 else |ps[0].bytes|) + HeadSize(ps[1..])
  }

  /** The head area when the next tail starts at `off`. */
  function Heads(ps: seq<Piece>, off: nat): (b: seq<byte>)
    ensures |b| == HeadSize(ps)
  {
    if ps == [] then []
    else if ps[0].InTail? then Word(off) + Heads(ps[1..], off + |ps[0].bytes|)
    else ps[0].bytes + Heads(ps[1..], off)
  }

  function Tails(ps: seq<Piece>): (b: seq<byte>) {
    if ps == [] then []
    else (if ps[0].InTail? then ps[0].bytes else []) + Tails(ps[1..])
  }

  /** Heads first, then tails; every offset counts from the start of this frame. */
  function Assemble(ps: seq<Piece>): (b: seq<byte>) {
    Heads(ps, HeadSize(ps)) + Tails(ps)
  }

  // ----- encoding by type -----

  /** enc(X) of the specification, for one value. */
  function Encode(t: Ty, a: Arg): (r: Result<seq<byte>>)
    decreases a, 1
  {
    match t
    case Bytes => EncodeBlob(a)
    case Text => EncodeBlob(a)
    case Array(e) =>
      if !a.List? then Fail
      else
        var body := EncodeAll(Repeat(e, |a.items|), a.items);
        if body.Ok? then Ok(Word(|a.items|) + body.value) else Fail
    case FixedArray(e, n) =>
      if !a.List? || |a.items| != n then Fail else EncodeAll(Repeat(e, n), a.items)
    case Tuple(ts) =>
      if !a.List? || |a.items| != |ts| then Fail else EncodeAll(ts, a.items)
    case _ => EncodeWord(t, a)
  }

  function EncodeAll(ts: seq<Ty>, args: seq<Arg>): (r: Result<seq<byte>>)
    requires |ts| == |args|
    decreases args, 0, 1
  {
    var ps := Pieces(ts, args);
    if ps.Ok? then Ok(Assemble(ps.value)) else Fail
  }

  function Pieces(ts: seq<Ty>, args: seq<Arg>): (r: Result<seq<Piece>>)
    requires |ts| == |args|
    ensures r.Ok? ==> |r.value| == |ts|
    ensures r.Ok? ==> forall i :: 0 <= i < |ts| ==> r.value[i].InTail? == Dynamic(ts[i])
    decreases args, 0, 0
  {
    if ts == [] then Ok([])
    else
      var e := Encode(ts[0], args[0]);
      var rest := Pieces(ts[1..], args[1..]);
      if e.Ok? && rest.Ok? then Ok([if Dynamic(ts[0]) then InTail(e.value) else InHead(e.value)] + rest.value)
      else Fail
  }

  // ----- which arguments match a type -----

  predicate Accepts(t: Ty, a: Arg)
    decreases a
  {
    match t
    case Bytes => a.Blob?
    case Text => a.Blob?
    case Array(e) => a.List? && forall i :: 0 <= i < |a.items| ==> Accepts(e, a.items[i])
    case FixedArray(e, n) => a.List? && |a.items| == n && forall i :: 0 <= i < n ==> Accepts(e, a.items[i])
    case Tuple(ts) => a.List? && |a.items| == |ts| && forall i :: 0 <= i < |ts| ==> Accepts(ts[i], a.items[i])
    case _ => AcceptsWord(t, a)
  }

  /** The value a reader of the encoding sees. */
  function Norm(t: Ty, a: Arg): (r: Arg)
    decreases a, 1
  {
    match t
    case Array(e) => if a.List? then List(NormAll(Repeat(e, |a.items|), a.items)) else a
    case FixedArray(e, n) => if a.List? && |a.items| == n then List(NormAll(Repeat(e, n), a.items)) else a
    case Tuple(ts) => if a.List? && |a.items| == |ts| then List(NormAll(ts, a.items)) else a
    case _ => NormWord(t, a)
  }

  function NormAll(ts: seq<Ty>, args: seq<Arg>): (r: seq<Arg>)
    requires |ts| == |args|
    decreases args, 0
  {
    if ts == [] then [] else [Norm(ts[0], args[0])] + NormAll(ts[1..], args[1..])
  }

  /** An encoding exists exactly for the arguments that match the type. */
  lemma {:induction false} EncodeAccepts(t: Ty, a: Arg)
    requires WellFormed(t)
    ensures Encode(t, a).Ok? <==> Accepts(t, a)
    ensures !Encode(t, a).Crash?
    decreases a, 1
  {
    match t
    case Bytes =>
    case Text =>
    case Array(e) => if a.List? { PiecesAccept(Repeat(e, |a.items|), a.items); }
    case FixedArray(e, n) => if a.List? && |a.items| == n { PiecesAccept(Repeat(e, n), a.items); }
    case Tuple(ts) => if a.List? && |a.items| == |ts| { PiecesAccept(ts, a.items); }
    case _ => EncodeWordAccepts(t, a);
  }

  lemma {:induction false} PiecesAccept(ts: seq<Ty>, args: seq<Arg>)
    requires |ts| == |args|
    requires forall i :: 0 <= i < |ts| ==> WellFormed(ts[i])
    ensures Pieces(ts, args).Ok? <==> forall i :: 0 <= i < |ts| ==> Accepts(ts[i], args[i])
    ensures !Pieces(ts, args).Crash?
    decreases args, 0
  {
    if ts != [] {
      EncodeAccepts(ts[0], args[0]);
      PiecesAccept(ts[1..], args[1..]);
      assert forall i :: 1 <= i < |ts| ==> ts[i] == ts[1..][i - 1] && args[i] == args[1..][i - 1];
    }
  }

  // ----- sizes -----

  /** Length of a static type's encoding: a function of the type alone. */
  function StaticSize(t: Ty): (n: nat)
    decreases t, 0
  {
    match t
    case FixedArray(e, n) => StaticSize(e) * n
    case Tuple(ts) => StaticSizes(ts)
    case _ => 32
  }

  function StaticSizes(ts: seq<Ty>): (n: nat)
    decreases ts, 1
  {
    if ts == [] then 0 else StaticSize(ts[0]) + StaticSizes(ts[1..])
  }

  /** Slot of one component in the head area. */
  function Slot(t: Ty): nat { if Dynamic(t) then 32 else StaticSize(t) }

  lemma {:induction false} StaticSizesRep(e: Ty, n: nat)
    ensures StaticSizes(Repeat(e, n)) == StaticSize(e) * n
  {
    if n > 0 {
      assert Repeat(e, n)[1..] == Repeat(e, n - 1);
      StaticSizesRep(e, n - 1);
      assert StaticSize(e) * n == StaticSize(e) + StaticSize(e) * (n - 1);
    }
  }

  /** A static value occupies exactly its type's size, whatever the value. */
  lemma {:induction false} StaticLength(t: Ty, a: Arg)
    requires !Dynamic(t) && Encode(t, a).Ok?
    ensures |Encode(t, a).value| == StaticSize(t)
    decreases a, 1
  {
    match t
    case FixedArray(e, n) =>
      StaticLengths(Repeat(e, n), a.items);
      StaticSizesRep(e, n);
    case Tuple(ts) => StaticLengths(ts, a.items);
    case _ =>
  }

  lemma {:induction false} StaticLengths(ts: seq<Ty>, args: seq<Arg>)
    requires |ts| == |args| && Pieces(ts, args).Ok?
    requires forall i :: 0 <= i < |ts| ==> !Dynamic(ts[i])
    ensures HeadSize(Pieces(ts, args).value) == StaticSizes(ts) && Tails(Pieces(ts, args).value) == []
    decreases args, 0
  {
    if ts != [] {
      StaticLength(ts[0], args[0]);
      StaticLengths(ts[1..], args[1..]);
      assert Pieces(ts, args).value[1..] == Pieces(ts[1..], args[1..]).value;
    }
  }

  lemma {:induction false} AssembleAligned(ps: seq<Piece>)
    requires forall i :: 0 <= i < |ps| ==> |ps[i].bytes| % 32 == 0
    ensures HeadSize(ps) % 32 == 0 && |Tails(ps)| % 32 == 0
  {
    if ps != [] {
      AssembleAligned(ps[1..]);
    }
  }

  /** Every encoding is a whole number of 32-byte words. */
  lemma {:induction false} Aligned(t: Ty, a: Arg)
    requires Encode(t, a).Ok?
    ensures |Encode(t, a).value| % 32 == 0
    decreases a, 1
  {
    match t
    case Array(e) => AlignedAll(Repeat(e, |a.items|), a.items);
    case FixedArray(e, n) => AlignedAll(Repeat(e, n), a.items);
    case Tuple(ts) => AlignedAll(ts, a.items);
    case Bytes => BlobAligned(a);
    case Text => BlobAligned(a);
    case _ =>
  }

  lemma {:induction false} BlobAligned(a: Arg)
    requires a.Blob?
    ensures |EncodeBlob(a).value| % 32 == 0
  {
    var n := |a.bytes|;
    assert |EncodeBlob(a).value| == 32 + (n + Padding(n));
  }

  lemma {:induction false} AlignedAll(ts: seq<Ty>, args: seq<Arg>)
    requires |ts| == |args| && Pieces(ts, args).Ok?
    ensures |Assemble(Pieces(ts, args).value)| % 32 == 0
    decreases args, 0
  {
    var ps := Pieces(ts, args).value;
    AlignedPieces(ts, args);
    AssembleAligned(ps);
  }

  lemma {:induction false} AlignedPieces(ts: seq<Ty>, args: seq<Arg>)
    requires |ts| == |args| && Pieces(ts, args).Ok?
    ensures forall i :: 0 <= i < |ts| ==> |Pieces(ts, args).value[i].bytes| % 32 == 0
    decreases args, 0, 0
  {
    if ts != [] {
      Aligned(ts[0], args[0]);
      AlignedPieces(ts[1..], args[1..]);
      assert Pieces(ts, args).value[1..] == Pieces(ts[1..], args[1..]).value;
    }
  }

  // ----- the decoder -----

  function Depth(t: Ty): (d: nat)
    decreases t, 0
  {
    match t
    case Array(e) => 1 + Depth(e)
    case FixedArray(e, _) => 1 + Depth(e)
    case Tuple(ts) => 1 + DepthAll(ts)
    case _ => 0
  }

  function DepthAll(ts: seq<Ty>): (d: nat)
    decreases ts, 1
  {
    if ts == [] then 0
    else if Depth(ts[0]) > DepthAll(ts[1..]) then Depth(ts[0])
    else DepthAll(ts[1..])
  }

  lemma {:induction false} DepthRep(e: Ty, n: nat)
    ensures DepthAll(Repeat(e, n)) <= Depth(e)
  {
    if n > 0 {
      assert Repeat(e, n)[1..] == Repeat(e, n - 1);
      DepthRep(e, n - 1);
    }
  }

  /** Reads one value whose encoding starts at the front of `d`. */
  function Decode(t: Ty, d: seq<byte>): (r: Option<Arg>)
    decreases Depth(t), 0
  {
    match t
    case Bytes => DecodeBlob(d)
    case Text => DecodeBlob(d)
    case Array(e) =>
      if |d| < 32 then None
      else
        var n := Value(d[..32], 256);
        DepthRep(e, n);
        ListOf(DecodeAll(Repeat(e, n), d[32..], 0))
    case FixedArray(e, n) =>
      DepthRep(e, n);
      ListOf(DecodeAll(Repeat(e, n), d, 0))
    case Tuple(ts) => ListOf(DecodeAll(ts, d, 0))
    case _ => if |d| < 32 then None else DecodeWord(t, d)
  }

  function ListOf(r: Option<seq<Arg>>): Option<Arg> {
    if r.Some? then Some(List(r.value)) else None
  }

  /** The data must be padded with zeros to the next multiple of 32. */
  function DecodeBlob(d: seq<byte>): (r: Option<Arg>) {
    if |d| < 32 then None
    else
      var n := Value(d[..32], 256);
      var end := 32 + (n + 31) / 32 * 32;
      if |d| < end || !AllZero(d[32 + n..end]) then None else Some(Blob(d[32..32 + n]))
  }

  /** Reads components of one frame; `pos` is the head slot of the first of them. */
  function DecodeAll(ts: seq<Ty>, frame: seq<byte>, pos: nat): (r: Option<seq<Arg>>)
    decreases DepthAll(ts), |ts| + 1
  {
    if ts == [] then Some([])
    else if pos + 32 > |frame| then None
    else
      var at: nat := if Dynamic(ts[0]) then Value(frame[pos..pos + 32], 256) else pos;
      if at > |frame| then None
      else
        var first := Decode(ts[0], frame[at..]);
        var rest := DecodeAll(ts[1..], frame, pos + Slot(ts[0]));
        if first.Some? && rest.Some? then Some([first.value] + rest.value) else None
  }

  // ----- round trip -----

  /** A slice of memory cannot be longer than a 63-bit length. */
  predicate Fits(b: seq<byte>) { |b| <= MAX_INT }

  lemma {:induction false} SmallWord(n: nat, rest: seq<byte>)
    requires n <= MAX_INT
    ensures Value((Word(n) + rest)[..32], 256) == n
  {
    MaxIntBound();
    DecodeUintBack(64, n, rest);
  }

  lemma {:induction false} Square(k: nat, p: nat)
    requires k == 8 || Power(2, k) == p
    requires k == 8 ==> p == 256
    ensures Power(2, 2 * k) == p * p
  {
    if k == 8 {
      assert Power(2, 8) == 256;
    }
    PowerAdd(2, k, k);
  }

  lemma {:induction false} MaxIntBound()
    ensures MAX_INT < Pow2(64)
  {
    Square(8, 256);
    Square(16, 65536);
    Square(32, 0x1_0000_0000);
  }

  lemma {:induction false} StaticSizePositive(t: Ty)
    requires WellFormed(t)
    ensures StaticSize(t) >= 32
  {
    match t
    case FixedArray(e, n) =>
      StaticSizePositive(e);
      MulMonotone(1, n, StaticSize(e));
    case Tuple(ts) => StaticSizePositive(ts[0]);
    case _ =>
  }

  lemma {:induction false} SlotIsHead(t: Ty, a: Arg)
    requires WellFormed(t) && Encode(t, a).Ok?
    ensures Slot(t) >= 32
    ensures !Dynamic(t) ==> |Encode(t, a).value| == Slot(t)
  {
    StaticSizePositive(t);
    if !Dynamic(t) {
      StaticLength(t, a);
    }
  }

  lemma {:induction false} ItemsFit(ts: seq<Ty>, args: seq<Arg>)
    requires |ts| == |args| && Pieces(ts, args).Ok?
    requires forall i :: 0 <= i < |ts| ==> WellFormed(ts[i])
    ensures |ts| <= HeadSize(Pieces(ts, args).value)
    decreases args
  {
    if ts != [] {
      SlotIsHead(ts[0], args[0]);
      ItemsFit(ts[1..], args[1..]);
      assert Pieces(ts, args).value[1..] == Pieces(ts[1..], args[1..]).value;
    }
  }

  lemma {:induction false} BlobBackAt(b: seq<byte>, pad: seq<byte>, rest: seq<byte>)
    requires |b| <= MAX_INT && AllZero(pad) && |b| + |pad| == (|b| + 31) / 32 * 32
    ensures DecodeBlob((Word(|b|) + b + pad) + rest) == Some(Blob(b))
  {
    var d := Word(|b|) + (b + (pad + rest));
    SmallWord(|b|, b + (pad + rest));
    assert d[32..32 + |b|] == b;
    assert d[32 + |b|..32 + |b| + |pad|] == pad;
    assert (Word(|b|) + b + pad) + rest == d;
  }

  lemma {:induction false} BlobBack(a: Arg, rest: seq<byte>)
    requires a.Blob? && Fits(EncodeBlob(a).value)
    ensures DecodeBlob(EncodeBlob(a).value + rest) == Some(a)
  {
    BlobBackAt(a.bytes, Zeros(Padding(|a.bytes|)), rest);
  }

  ghost predicate Readable(ts: seq<Ty>) {
    ts == [] || (WellFormed(ts[0]) && Readable(ts[1..]))
  }

  lemma {:induction false} ReadableAll(ts: seq<Ty>)
    requires forall i :: 0 <= i < |ts| ==> WellFormed(ts[i])
    ensures Readable(ts)
  {
    if ts != [] {
      ReadableAll(ts[1..]);
    }
  }

  /** Decoding an encoding, whatever follows it, gives the normalised argument. */
  lemma {:induction false} RoundTrip(t: Ty, a: Arg, rest: seq<byte>)
    requires WellFormed(t) && Encode(t, a).Ok? && Fits(Encode(t, a).value)
    ensures Decode(t, Encode(t, a).value + rest) == Some(Norm(t, a))
    decreases a, 1
  {
    var enc := Encode(t, a).value;
    match t
    case Bytes => BlobBack(a, rest);
    case Text => BlobBack(a, rest);
    case Array(e) => ArrayBack(e, a, rest);
    case FixedArray(e, n) =>
      ReadableAll(Repeat(e, n));
      FrameBack(Repeat(e, n), a.items, rest);
    case Tuple(ts) =>
      ReadableAll(ts);
      FrameBack(ts, a.items, rest);
    case _ =>
      EncodeWordAccepts(t, a);
      DecodeWordBack(t, a, rest);
  }

  lemma {:induction false} ArrayBack(e: Ty, a: Arg, rest: seq<byte>)
    requires WellFormed(e) && Encode(Array(e), a).Ok? && Fits(Encode(Array(e), a).value)
    ensures Decode(Array(e), Encode(Array(e), a).value + rest) == Some(Norm(Array(e), a))
    decreases a, 0
  {
    var n := |a.items|;
    var body := EncodeAll(Repeat(e, n), a.items).value;
    ItemsFit(Repeat(e, n), a.items);
    ReadableAll(Repeat(e, n));
    ConcatAssoc(Word(n), body, rest);
    SmallWord(n, body + rest);
    DropFront(Word(n), body + rest);
    FrameBack(Repeat(e, n), a.items, rest);
  }

  lemma {:induction false} FrameBack(ts: seq<Ty>, args: seq<Arg>, rest: seq<byte>)
    requires |ts| == |args| && EncodeAll(ts, args).Ok? && Fits(EncodeAll(ts, args).value)
    requires Readable(ts)
    ensures DecodeAll(ts, EncodeAll(ts, args).value + rest, 0) == Some(NormAll(ts, args))
    decreases args, 0, 2
  {
    var ps := Pieces(ts, args).value;
    var h := HeadSize(ps);
    var frame := Assemble(ps) + rest;
    assert frame[..h] == Heads(ps, h) && frame[h..h + |Tails(ps)|] == Tails(ps);
    ComponentsBack(ts, args, ps, frame, 0, h);
  }

  /** `frame` holds the remaining heads at `pos` and the remaining tails at `off`. */
  ghost predicate Holds(ps: seq<Piece>, frame: seq<byte>, pos: nat, off: nat) {
    && pos + HeadSize(ps) <= |frame| && frame[pos..pos + HeadSize(ps)] == Heads(ps, off)
    && off + |Tails(ps)| <= |frame| && frame[off..off + |Tails(ps)|] == Tails(ps)
    && HeadSize(ps) + |Tails(ps)| <= MAX_INT && off + |Tails(ps)| <= MAX_INT
  }

  lemma {:induction false} PrefixOf(frame: seq<byte>, at: nat, x: seq<byte>, y: seq<byte>)
    requires at + |x| + |y| <= |frame| && frame[at..at + |x| + |y|] == x + y
    ensures frame[at..at + |x|] == x
    ensures frame[at + |x|..at + |x| + |y|] == y
    ensures frame[at..] == x + frame[at + |x|..]
  {
    var z := frame[at..at + |x| + |y|];
    assert frame[at..at + |x|] == z[..|x|];
    assert frame[at + |x|..at + |x| + |y|] == z[|x|..];
  }

  lemma {:induction false} HoldsTail(ps: seq<Piece>, qs: seq<Piece>, frame: seq<byte>, pos: nat, off: nat)
    requires ps != [] && qs == ps[1..] && Holds(ps, frame, pos, off) && ps[0].InTail?
    ensures pos + 32 <= |frame| && frame[pos..pos + 32] == Word(off)
    ensures off + |ps[0].bytes| <= |frame| && frame[off..] == ps[0].bytes + frame[off + |ps[0].bytes|..]
    ensures |ps[0].bytes| <= MAX_INT && off <= MAX_INT
    ensures Holds(qs, frame, pos + 32, off + |ps[0].bytes|)
  {
    PrefixOf(frame, pos, Word(off), Heads(ps[1..], off + |ps[0].bytes|));
    PrefixOf(frame, off, ps[0].bytes, Tails(ps[1..]));
  }

  lemma {:induction false} HoldsHead(ps: seq<Piece>, qs: seq<Piece>, frame: seq<byte>, pos: nat, off: nat)
    requires ps != [] && qs == ps[1..] && Holds(ps, frame, pos, off) && ps[0].InHead?
    ensures pos + |ps[0].bytes| <= |frame| && frame[pos..] == ps[0].bytes + frame[pos + |ps[0].bytes|..]
    ensures |ps[0].bytes| <= MAX_INT
    ensures Holds(qs, frame, pos + |ps[0].bytes|, off)
  {
    PrefixOf(frame, pos, ps[0].bytes, Heads(ps[1..], off));
    assert Tails(ps) == Tails(ps[1..]);
  }

  lemma {:induction false} DecodeTailSlot(ts: seq<Ty>, frame: seq<byte>, pos: nat, off: nat, first: Arg, rest: seq<Arg>)
    requires ts != [] && Dynamic(ts[0])
    requires pos + 32 <= |frame| && frame[pos..pos + 32] == Word(off) && off <= MAX_INT && off <= |frame|
    requires Decode(ts[0], frame[off..]) == Some(first)
    requires DecodeAll(ts[1..], frame, pos + 32) == Some(rest)
    ensures DecodeAll(ts, frame, pos) == Some([first] + rest)
  {
    SmallWord(off, []);
    assert (Word(off) + [])[..32] == Word(off);
  }

  lemma {:induction false} DecodeHeadSlot(ts: seq<Ty>, frame: seq<byte>, pos: nat, next: nat, first: Arg, rest: seq<Arg>)
    requires ts != [] && !Dynamic(ts[0])
    requires pos + 32 <= |frame| && next == pos + Slot(ts[0])
    requires Decode(ts[0], frame[pos..]) == Some(first)
    requires DecodeAll(ts[1..], frame, next) == Some(rest)
    ensures DecodeAll(ts, frame, pos) == Some([first] + rest)
  {
  }

  lemma {:induction false} PiecesSplit(ts: seq<Ty>, args: seq<Arg>) returns (qs: seq<Piece>)
    requires |ts| == |args| && ts != [] && Pieces(ts, args).Ok?
    ensures Pieces(ts[1..], args[1..]) == Ok(qs) && Pieces(ts, args).value[1..] == qs
    ensures Encode(ts[0], args[0]) == Ok(Pieces(ts, args).value[0].bytes)
  {
    qs := Pieces(ts[1..], args[1..]).value;
  }

  /** `ps` are the pieces of (ts, args), and `frame` holds them. */
  ghost predicate Placed(ts: seq<Ty>, args: seq<Arg>, ps: seq<Piece>, frame: seq<byte>, pos: nat, off: nat) {
    |ts| == |args| && Readable(ts) && Pieces(ts, args) == Ok(ps) && Holds(ps, frame, pos, off)
  }

  lemma {:induction false} PlacedRest(ts: seq<Ty>, args: seq<Arg>, qs: seq<Piece>, frame: seq<byte>, pos: nat, off: nat)
    requires |ts| == |args| && ts != [] && Readable(ts)
    requires Pieces(ts[1..], args[1..]) == Ok(qs) && Holds(qs, frame, pos, off)
    ensures Placed(ts[1..], args[1..], qs, frame, pos, off)
  {
  }

  /** The first component is dynamic: its head is the offset `off`, its tail is found there. */
  lemma {:induction false} PlacedTail(ts: seq<Ty>, args: seq<Arg>, ps: seq<Piece>, frame: seq<byte>, pos: nat, off: nat)
      returns (b: seq<byte>, qs: seq<Piece>, next: nat)
    requires Placed(ts, args, ps, frame, pos, off) && ts != [] && Dynamic(ts[0])
    ensures WellFormed(ts[0]) && Encode(ts[0], args[0]) == Ok(b) && Fits(b)
    ensures pos + 32 <= |frame| && frame[pos..pos + 32] == Word(off) && off <= MAX_INT
    ensures off <= next <= |frame| && frame[off..] == b + frame[next..]
    ensures Placed(ts[1..], args[1..], qs, frame, pos + 32, next)
  {
    qs := PiecesSplit(ts, args);
    HoldsTail(ps, qs, frame, pos, off);
    b, next := ps[0].bytes, off + |ps[0].bytes|;
    PlacedRest(ts, args, qs, frame, pos + 32, next);
  }

  /** The first component is static: it is all there in the head. */
  lemma {:induction false} PlacedHead(ts: seq<Ty>, args: seq<Arg>, ps: seq<Piece>, frame: seq<byte>, pos: nat, off: nat)
      returns (b: seq<byte>, qs: seq<Piece>, next: nat)
    requires Placed(ts, args, ps, frame, pos, off) && ts != [] && !Dynamic(ts[0])
    ensures WellFormed(ts[0]) && Encode(ts[0], args[0]) == Ok(b) && Fits(b)
    ensures next == pos + Slot(ts[0]) && pos + 32 <= next <= |frame| && frame[pos..] == b + frame[next..]
    ensures Placed(ts[1..], args[1..], qs, frame, next, off)
  {
    qs := PiecesSplit(ts, args);
    SlotIsHead(ts[0], args[0]);
    HoldsHead(ps, qs, frame, pos, off);
    b, next := ps[0].bytes, pos + |ps[0].bytes|;
    PlacedRest(ts, args, qs, frame, next, off);
  }

  /** The components whose pieces `frame` holds are all read back. */
  lemma {:induction false} ComponentsBack(ts: seq<Ty>, args: seq<Arg>, ps: seq<Piece>, frame: seq<byte>, pos: nat, off: nat)
    requires Placed(ts, args, ps, frame, pos, off)
    ensures DecodeAll(ts, frame, pos) == Some(NormAll(ts, args))
    decreases args, 0, 1
  {
    if ts != [] {
      if Dynamic(ts[0]) {
        TailBack(ts, args, ps, frame, pos, off);
      } else {
        HeadBack(ts, args, ps, frame, pos, off);
      }
    }
  }

  lemma {:induction false} FirstBack(t: Ty, a: Arg, b: seq<byte>, rest: seq<byte>)
    requires WellFormed(t) && Encode(t, a).Ok? && Fits(Encode(t, a).value) && b == Encode(t, a).value + rest
    ensures Decode(t, b) == Some(Norm(t, a))
    decreases a, 2
  {
    RoundTrip(t, a, rest);
  }

  lemma {:induction false} TailBack(ts: seq<Ty>, args: seq<Arg>, ps: seq<Piece>, frame: seq<byte>, pos: nat, off: nat)
    requires Placed(ts, args, ps, frame, pos, off) && ts != [] && Dynamic(ts[0])
    ensures DecodeAll(ts, frame, pos) == Some(NormAll(ts, args))
    decreases args, 0, 0
  {
    var b, qs, next := PlacedTail(ts, args, ps, frame, pos, off);
    ComponentsBack(ts[1..], args[1..], qs, frame, pos + 32, next);
    FirstBack(ts[0], args[0], frame[off..], frame[next..]);
    DecodeTailSlot(ts, frame, pos, off, Norm(ts[0], args[0]), NormAll(ts[1..], args[1..]));
  }

  lemma {:induction false} HeadBack(ts: seq<Ty>, args: seq<Arg>, ps: seq<Piece>, frame: seq<byte>, pos: nat, off: nat)
    requires Placed(ts, args, ps, frame, pos, off) && ts != [] && !Dynamic(ts[0])
    ensures DecodeAll(ts, frame, pos) == Some(NormAll(ts, args))
    decreases args, 0, 0
  {
    var b, qs, next := PlacedHead(ts, args, ps, frame, pos, off);
    ComponentsBack(ts[1..], args[1..], qs, frame, next, off);
    FirstBack(ts[0], args[0], frame[pos..], frame[next..]);
    DecodeHeadSlot(ts, frame, pos, next, Norm(ts[0], args[0]), NormAll(ts[1..], args[1..]));
  }
}
