/** Worked layouts (chain/abi.go), after the "Examples" and "Use of Dynamic Types" sections of the
    Solidity Contract ABI Specification: what stands where, word by word, for all contents. */
module AbiLayout {
  import opened Options
  import opened Sequences
  import opened Numerals
  import opened AbiTypes
  import opened AbiWords
  import opened AbiCodec

  /** Length, data, zero padding. */
  function Blobbed(b: seq<byte>): (e: seq<byte>) { Word(|b|) + b + Zeros((32 - |b| % 32) % 32) }

  /** A list of two dynamic values: two offsets counted from the first of them, two tails. */
  function TwoTails(a: seq<byte>, b: seq<byte>): (e: seq<byte>) { Word(64) + Word(64 + |a|) + a + b }

  lemma {:induction false} BlobIs(b: seq<byte>)
    ensures EncodeBlob(Blob(b)) == Ok(Blobbed(b))
  {
    assert Padding(|b|) == (32 - |b| % 32) % 32;
  }

  // ----- pieces -----

  function PieceFor(t: Ty, e: seq<byte>): (p: Piece) { if Dynamic(t) then InTail(e) else InHead(e) }

  lemma {:induction false} PiecesCons(t: Ty, a: Arg, e: seq<byte>, ts: seq<Ty>, args: seq<Arg>, ps: seq<Piece>)
    requires |ts| == |args| && Encode(t, a) == Ok(e) && Pieces(ts, args) == Ok(ps)
    ensures Pieces([t] + ts, [a] + args) == Ok([PieceFor(t, e)] + ps)
  {
    assert ([t] + ts)[1..] == ts && ([a] + args)[1..] == args;
  }

  lemma {:induction false} PiecesOne(t: Ty, a: Arg, e: seq<byte>)
    requires Encode(t, a) == Ok(e)
    ensures Pieces([t], [a]) == Ok([PieceFor(t, e)])
  {
    assert Pieces([], []) == Ok([]);
    PiecesCons(t, a, e, [], [], []);
    assert [t] + [] == [t] && [a] + [] == [a] && [PieceFor(t, e)] + [] == [PieceFor(t, e)];
  }

  lemma {:induction false} SizeCons(p: Piece, ps: seq<Piece>)
    ensures HeadSize([p] + ps) == (if p.InTail? then 32 else |p.bytes|) + HeadSize(ps)
  {
    assert ([p] + ps)[1..] == ps;
  }

  lemma {:induction false} TailsCons(p: Piece, ps: seq<Piece>)
    ensures Tails([p] + ps) == (if p.InTail? then p.bytes else []) + Tails(ps)
  {
    assert ([p] + ps)[1..] == ps;
  }

  lemma {:induction false} HeadsCons(p: Piece, ps: seq<Piece>, off: nat)
    ensures Heads([p] + ps, off) == if p.InTail? then Word(off) + Heads(ps, off + |p.bytes|) else p.bytes + Heads(ps, off)
  {
    assert ([p] + ps)[1..] == ps;
  }

  lemma {:induction false} TailCons(e: seq<byte>, ps: seq<Piece>, off: nat)
    ensures HeadSize([InTail(e)] + ps) == 32 + HeadSize(ps)
    ensures Heads([InTail(e)] + ps, off) == Word(off) + Heads(ps, off + |e|)
    ensures Tails([InTail(e)] + ps) == e + Tails(ps)
  {
    SizeCons(InTail(e), ps);
    HeadsCons(InTail(e), ps, off);
    TailsCons(InTail(e), ps);
  }

  lemma {:induction false} HeadCons(e: seq<byte>, ps: seq<Piece>, off: nat)
    ensures HeadSize([InHead(e)] + ps) == |e| + HeadSize(ps)
    ensures Heads([InHead(e)] + ps, off) == e + Heads(ps, off)
    ensures Tails([InHead(e)] + ps) == Tails(ps)
  {
    SizeCons(InHead(e), ps);
    HeadsCons(InHead(e), ps, off);
    TailsCons(InHead(e), ps);
  }

  lemma {:induction false} LastTail(e: seq<byte>, off: nat)
    ensures HeadSize([InTail(e)]) == 32 && Heads([InTail(e)], off) == Word(off) && Tails([InTail(e)]) == e
  {
    TailCons(e, [], off);
    assert [InTail(e)] + [] == [InTail(e)];
  }

  lemma {:induction false} LastHead(e: seq<byte>, off: nat)
    ensures HeadSize([InHead(e)]) == |e| && Heads([InHead(e)], off) == e && Tails([InHead(e)]) == []
  {
    HeadCons(e, [], off);
    assert [InHead(e)] + [] == [InHead(e)];
  }

  lemma {:induction false} AssembleOne(e: seq<byte>)
    ensures Assemble([InTail(e)]) == Word(32) + e && Assemble([InHead(e)]) == e
  {
    LastTail(e, 32);
    LastHead(e, |e|);
  }

  lemma {:induction false} AssembleTails(a: seq<byte>, b: seq<byte>)
    ensures Assemble([InTail(a)] + [InTail(b)]) == TwoTails(a, b)
  {
    LastTail(b, 64 + |a|);
    TailCons(a, [InTail(b)], 64);
  }

  lemma {:induction false} AssembleHeads(a: seq<byte>, b: seq<byte>)
    ensures Assemble([InHead(a)] + [InHead(b)]) == a + b
  {
    LastHead(b, |a| + |b|);
    HeadCons(a, [InHead(b)], |a| + |b|);
  }

  lemma {:induction false} AssembleMixed(a: seq<byte>, w: seq<byte>, b: seq<byte>)
    requires |w| == 32
    ensures Assemble([InTail(a)] + ([InHead(w)] + [InTail(b)])) == Word(96) + w + Word(96 + |a|) + a + b
  {
    LastTail(b, 96 + |a|);
    HeadCons(w, [InTail(b)], 96 + |a|);
    TailCons(a, [InHead(w)] + [InTail(b)], 96);
    Regroup(Word(96), w, Word(96 + |a|), a, b);
  }

  lemma {:induction false} Regroup(a: seq<byte>, b: seq<byte>, c: seq<byte>, d: seq<byte>, e: seq<byte>)
    ensures a + (b + c) + (d + e) == a + b + c + d + e
  {
  }

  // ----- lists of two -----

  lemma {:induction false} PairPieces(t: Ty, a: Arg, x: seq<byte>, b: Arg, y: seq<byte>)
    requires Encode(t, a) == Ok(x) && Encode(t, b) == Ok(y)
    ensures Pieces(Repeat(t, 2), [a, b]) == Ok([PieceFor(t, x)] + [PieceFor(t, y)])
  {
    PiecesOne(t, b, y);
    PiecesCons(t, a, x, [t], [b], [PieceFor(t, y)]);
    assert Repeat(t, 2) == [t] + [t] && [a, b] == [a] + [b];
  }

  lemma {:induction false} PairAll(t: Ty, a: Arg, x: seq<byte>, b: Arg, y: seq<byte>)
    requires Encode(t, a) == Ok(x) && Encode(t, b) == Ok(y)
    ensures EncodeAll(Repeat(t, 2), [a, b]) == Ok(if Dynamic(t) then TwoTails(x, y) else x + y)
  {
    PairPieces(t, a, x, b, y);
    AssembleTails(x, y);
    AssembleHeads(x, y);
  }

  lemma {:induction false} ListOfTwo(t: Ty, a: Arg, x: seq<byte>, b: Arg, y: seq<byte>)
    requires Encode(t, a) == Ok(x) && Encode(t, b) == Ok(y)
    ensures Encode(Array(t), List([a, b])) == Ok(Word(2) + (if Dynamic(t) then TwoTails(x, y) else x + y))
  {
    PairAll(t, a, x, b, y);
    ListIsAll(t, [a, b]);
  }

  lemma {:induction false} PairOfTwo(t: Ty, a: Arg, x: seq<byte>, b: Arg, y: seq<byte>)
    requires Encode(t, a) == Ok(x) && Encode(t, b) == Ok(y)
    ensures Encode(FixedArray(t, 2), List([a, b])) == Ok(if Dynamic(t) then TwoTails(x, y) else x + y)
  {
    PairAll(t, a, x, b, y);
    ListIsAll(t, [a, b]);
  }

  lemma {:induction false} ListIsAll(t: Ty, items: seq<Arg>)
    requires EncodeAll(Repeat(t, |items|), items).Ok?
    ensures Encode(Array(t), List(items)) == Ok(Word(|items|) + EncodeAll(Repeat(t, |items|), items).value)
    ensures Encode(FixedArray(t, |items|), List(items)) == EncodeAll(Repeat(t, |items|), items)
  {
  }

  lemma {:induction false} OneAll(t: Ty, a: Arg, e: seq<byte>)
    requires Encode(t, a) == Ok(e)
    ensures EncodeAll([t], [a]) == Ok(if Dynamic(t) then Word(32) + e else e)
  {
    PiecesOne(t, a, e);
    AssembleOne(e);
  }

  /** A dynamic value, a word, a dynamic value. */
  lemma {:induction false} MixedAll(t: Ty, a: Arg, x: seq<byte>, u: Ty, b: Arg, w: seq<byte>, v: Ty, c: Arg, z: seq<byte>)
    requires Dynamic(t) && !Dynamic(u) && Dynamic(v) && |w| == 32
    requires Encode(t, a) == Ok(x) && Encode(u, b) == Ok(w) && Encode(v, c) == Ok(z)
    ensures EncodeAll([t, u, v], [a, b, c]) == Ok(Word(96) + w + Word(96 + |x|) + x + z)
  {
    PiecesOne(v, c, z);
    PiecesCons(u, b, w, [v], [c], [InTail(z)]);
    PiecesCons(t, a, x, [u] + [v], [b] + [c], [InHead(w)] + [InTail(z)]);
    assert [t] + ([u] + [v]) == [t, u, v] && [a] + ([b] + [c]) == [a, b, c];
    AssembleMixed(x, w, z);
  }

  lemma {:induction false} TwoDynamic(t: Ty, a: Arg, x: seq<byte>, b: Arg, y: seq<byte>)
    requires Dynamic(t) && Encode(t, a) == Ok(x) && Encode(t, b) == Ok(y)
    ensures EncodeAll([Array(t)], [List([a, b])]) == Ok(Word(32) + (Word(2) + TwoTails(x, y)))
    ensures EncodeAll([FixedArray(t, 2)], [List([a, b])]) == Ok(Word(32) + TwoTails(x, y))
  {
    ListOfTwo(t, a, x, b, y);
    PairOfTwo(t, a, x, b, y);
    OneAll(Array(t), List([a, b]), Word(2) + TwoTails(x, y));
    OneAll(FixedArray(t, 2), List([a, b]), TwoTails(x, y));
  }

  // ----- worked examples -----

  lemma {:induction false} NumberList(x: nat, y: nat)
    requires x < Pow2(256) && y < Pow2(256)
    ensures Encode(Array(Uint(256)), List([Num(x), Num(y)])) == Ok(Word(2) + (Word(x) + Word(y)))
  {
    assert Encode(Uint(256), Num(x)) == Ok(Word(x)) && Encode(Uint(256), Num(y)) == Ok(Word(y));
    ListOfTwo(Uint(256), Num(x), Word(x), Num(y), Word(y));
  }

  /** f(bytes,bool,uint256[]): two offsets around a word, then the bytes, then the list. */
  lemma {:induction false} BytesBoolList(b: seq<byte>, f: bool, x: nat, y: nat)
    requires x < Pow2(256) && y < Pow2(256)
    ensures EncodeAll([Bytes, Bool, Array(Uint(256))], [Blob(b), Flag(f), List([Num(x), Num(y)])]) ==
      Ok(Word(96) + Word(if f then 1 else 0) + Word(96 + |Blobbed(b)|) + Blobbed(b) + (Word(2) + (Word(x) + Word(y))))
  {
    NumberList(x, y);
    BytesWordList(b, f, Word(if f then 1 else 0), List([Num(x), Num(y)]), Word(2) + (Word(x) + Word(y)));
  }

  lemma {:induction false} BytesWordList(b: seq<byte>, f: bool, w: seq<byte>, xs: Arg, list: seq<byte>)
    requires w == Word(if f then 1 else 0) && Encode(Array(Uint(256)), xs) == Ok(list)
    ensures EncodeAll([Bytes, Bool, Array(Uint(256))], [Blob(b), Flag(f), xs]) ==
      Ok(Word(96) + w + Word(96 + |Blobbed(b)|) + Blobbed(b) + list)
  {
    BlobIs(b);
    MixedAll(Bytes, Blob(b), Blobbed(b), Bool, Flag(f), w, Array(Uint(256)), xs, list);
  }

  /** f(string[]): the inner offsets count from after the inner length. */
  lemma {:induction false} StringList(a: seq<byte>, b: seq<byte>)
    ensures EncodeAll([Array(Text)], [List([Blob(a), Blob(b)])]) ==
      Ok(Word(32) + (Word(2) + TwoTails(Blobbed(a), Blobbed(b))))
  {
    BlobIs(a);
    BlobIs(b);
    TwoDynamic(Text, Blob(a), Blobbed(a), Blob(b), Blobbed(b));
  }

  /** f(string[2]): dynamic although its length is fixed, and without a length word. */
  lemma {:induction false} StringPair(a: seq<byte>, b: seq<byte>)
    ensures EncodeAll([FixedArray(Text, 2)], [List([Blob(a), Blob(b)])]) ==
      Ok(Word(32) + TwoTails(Blobbed(a), Blobbed(b)))
  {
    BlobIs(a);
    BlobIs(b);
    TwoDynamic(Text, Blob(a), Blobbed(a), Blob(b), Blobbed(b));
  }

  /** f(bytes3[2]): static, in place, each value at the left of its word. */
  lemma {:induction false} ThreeBytesPair(a: seq<byte>, b: seq<byte>)
    requires |a| == |b| == 3
    ensures EncodeAll([FixedArray(FixedBytes(3), 2)], [List([Blob(a), Blob(b)])]) == Ok(a + Zeros(29) + (b + Zeros(29)))
  {
    PairOfTwo(FixedBytes(3), Blob(a), a + Zeros(29), Blob(b), b + Zeros(29));
    OneAll(FixedArray(FixedBytes(3), 2), List([Blob(a), Blob(b)]), a + Zeros(29) + (b + Zeros(29)));
  }
}
