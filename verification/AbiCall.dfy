/** Function calls: signature parsing, calldata, and the hand-written ERC-20 encoder
    (chain/abi.go, chain/tx_eth.go). */
module AbiCall {
  import opened Options
  import opened Sequences
  import opened Numerals
  import opened IntText
  import opened AbiTypes
  import opened AbiWords
  import opened AbiCodec
  import opened AbiEncoder

  function FirstIndex(s: string, c: char): (k: Option<nat>)
    ensures k.Some? ==> k.value < |s|
  {
    if s == [] then None
    else if s[0] == c then Some(0)
    else Shift(FirstIndex(s[1..], c), 1)
  }

  /** The parameter types between the first '(' and the final ')'. */
  function ParseParamTypes(sig: string): (r: Option<seq<string>>) {
    var open, close := FirstIndex(sig, '('), LastIndex(sig, ')');
    if open.None? || close.None? || close.value <= open.value || close.value != |sig| - 1 then None
    else
      var inner := sig[open.value + 1..close.value];
      if inner == [] then Some([]) else Some(SplitTopLevel(inner))
  }

  lemma {:induction false} FirstIndexExactly(s: string, c: char)
    ensures FirstIndex(s, c).Some? <==> c in s
    ensures FirstIndex(s, c).Some? ==> s[FirstIndex(s, c).value] == c
  {
    if s != [] && s[0] != c {
      FirstIndexExactly(s[1..], c);
    }
  }

  /** A signature is anything with an opening parenthesis that ends with a closing one. */
  lemma {:induction false} SignatureShape(sig: string)
    ensures ParseParamTypes(sig).Some? <==> '(' in sig && sig[|sig| - 1] == ')'
  {
    FirstIndexExactly(sig, '(');
  }

  /** `selector` stands for the first four bytes of the signature's hash. */
  function EncodeCall(sig: string, selector: seq<byte>, args: seq<Arg>): (r: Result<seq<byte>>) {
    var types := ParseParamTypes(sig);
    if types.None? || |types.value| != |args| then Fail
    else
      var body := EncodeArgs(types.value, args);
      if body.Ok? then Ok(selector + body.value) else body
  }

  function Signature(name: string, ts: seq<Ty>): (sig: string) {
    name + "(" + Join(ts) + ")"
  }

  lemma {:induction false} FirstIndexAfter(name: string, rest: string, c: char)
    requires forall i :: 0 <= i < |name| ==> name[i] != c
    ensures FirstIndex(name + [c] + rest, c) == Some(|name|)
  {
    var s := name + [c] + rest;
    if name != [] {
      assert s[1..] == name[1..] + [c] + rest && s[0] == name[0];
      FirstIndexAfter(name[1..], rest, c);
    }
  }

  predicate Supportable(ts: seq<Ty>) {
    forall i :: 0 <= i < |ts| ==> WellFormed(ts[i]) && Supported(ts[i])
  }

  /** Parsing a printed signature gives back the printed parameter types. */
  lemma {:induction false} ParseSignature(name: string, ts: seq<Ty>)
    requires forall i :: 0 <= i < |name| ==> name[i] != '('
    requires Supportable(ts)
    ensures ParseParamTypes(Signature(name, ts)) == Some(RenderAll(ts))
  {
    var sig, inner := Signature(name, ts), Join(ts);
    ConcatAssoc(name + "(", inner, ")");
    FirstIndexAfter(name, inner + ")", '(');
    assert sig[|sig| - 1] == ')';
    assert sig[|name| + 1..|sig| - 1] == inner;
    if ts == [] {
      assert RenderAll(ts) == [];
    } else {
      RenderChars(ts[0]);
      assert inner != [];
      SplitJoin(ts);
    }
  }

  /** A call is encoded exactly when the arguments match the signature. */
  lemma {:induction false} CallAccepts(name: string, ts: seq<Ty>, selector: seq<byte>, args: seq<Arg>)
    requires forall i :: 0 <= i < |name| ==> name[i] != '('
    requires Supportable(ts)
    ensures EncodeCall(Signature(name, ts), selector, args).Ok? <==>
      |ts| == |args| && forall i :: 0 <= i < |ts| ==> Accepts(ts[i], args[i])
    ensures !EncodeCall(Signature(name, ts), selector, args).Crash?
  {
    ParseSignature(name, ts);
    if |ts| == |args| {
      ArgsAgree(ts, args);
      PiecesAccept(ts, args);
    }
  }

  /** Whatever calldata a printed signature produces, the decoder reads the arguments back. */
  lemma {:induction false} CallRoundTrip(name: string, ts: seq<Ty>, selector: seq<byte>, args: seq<Arg>)
    requires forall i :: 0 <= i < |name| ==> name[i] != '('
    requires Supportable(ts)
    requires EncodeCall(Signature(name, ts), selector, args).Ok?
    requires Fits(EncodeCall(Signature(name, ts), selector, args).value)
    ensures |ts| == |args|
    ensures var data := EncodeCall(Signature(name, ts), selector, args).value;
      |selector| <= |data| && data[..|selector|] == selector
      && DecodeAll(ts, data[|selector|..], 0) == Some(NormAll(ts, args))
  {
    ParseSignature(name, ts);
    ArgsAgree(ts, args);
    var body := EncodeAll(ts, args).value;
    DropFront(selector, body);
    ReadableAll(ts);
    FrameBack(ts, args, []);
    assert body + [] == body;
  }

  // ----- the hand-written ERC-20 encoder -----

  function EncodeAddrAmount(selector: seq<byte>, address: seq<byte>, amount: int): (r: Result<seq<byte>>) {
    if amount < 0 then Fail
    else if |Digits(amount, 256)| > 32 then Fail
    else Ok(selector + (Zeros(12) + Fit20(address)) + Word(amount))
  }

  lemma {:induction false} DigitsTooLong(n: nat)
    requires n >= Pow2(256)
    ensures |Digits(n, 256)| > 32
  {
    var ds := Digits(n, 256);
    ValueOfDigits(n, 256);
    ValueBound(ds, 256);
    Pow256(32);
    if |ds| <= 32 {
      PowerMonotone(256, |ds|, 32);
    }
  }

  lemma {:induction false} AmountRange(amount: nat)
    ensures |Digits(amount, 256)| > 32 <==> amount >= Pow2(256)
  {
    if amount >= Pow2(256) {
      DigitsTooLong(amount);
    } else {
      Pow256(32);
      DigitsLength(amount, 256, 32);
    }
  }

  /** A call with a printed signature is the selector followed by the grammar's encoding. */
  lemma {:induction false} CallIsEncodeAll(name: string, ts: seq<Ty>, selector: seq<byte>, args: seq<Arg>)
    requires forall i :: 0 <= i < |name| ==> name[i] != '('
    requires Supportable(ts) && |ts| == |args|
    ensures EncodeCall(Signature(name, ts), selector, args) ==
      var body := EncodeAll(ts, args); if body.Ok? then Ok(selector + body.value) else body
  {
    ParseSignature(name, ts);
    ArgsAgree(ts, args);
  }

  /** The two words of the hand-written encoder are those of the word encoder. */
  lemma {:induction false} AddrAmountWords(selector: seq<byte>, address: seq<byte>, amount: int)
    ensures EncodeWord(Address, Blob(address)) == Ok(Zeros(12) + Fit20(address))
    ensures EncodeAddrAmount(selector, address, amount) ==
      var y := EncodeWord(Uint(256), Num(amount));
      if y.Ok? then Ok(selector + (Zeros(12) + Fit20(address)) + y.value) else Fail
  {
    if amount >= 0 {
      AmountRange(amount);
    }
  }

  /** For every address and amount the hand-written encoder is the general one, and both reject
      the same amounts. */
  lemma {:induction false} AddrAmountAgrees(name: string, selector: seq<byte>, address: seq<byte>, amount: int)
    requires forall i :: 0 <= i < |name| ==> name[i] != '('
    ensures EncodeAddrAmount(selector, address, amount)
         == EncodeCall(Signature(name, [Address, Uint(256)]), selector, [Blob(address), Num(amount)])
  {
    CallIsEncodeAll(name, [Address, Uint(256)], selector, [Blob(address), Num(amount)]);
    TwoWords(Blob(address), Num(amount));
    AddrAmountWords(selector, address, amount);
    var x, y := Zeros(12) + Fit20(address), EncodeWord(Uint(256), Num(amount));
    if y.Ok? {
      ConcatAssoc(selector, x, y.value);
    }
  }

  lemma {:induction false} AssembleTwo(x: seq<byte>, y: seq<byte>)
    ensures Assemble([InHead(x), InHead(y)]) == x + y
  {
    var ps := [InHead(x), InHead(y)];
    assert ps[1..] == [InHead(y)] && ps[1..][1..] == [];
    assert Heads(ps[1..], HeadSize(ps)) == y;
    NoTails(ps);
  }

  lemma {:induction false} OneWord(t: Ty, a: Arg)
    requires WordType(t)
    ensures Pieces([t], [a]) == if EncodeWord(t, a).Ok? then Ok([InHead(EncodeWord(t, a).value)]) else Fail
  {
    assert [t][1..] == [] && [a][1..] == [];
    assert Encode(t, a) == EncodeWord(t, a);
    assert Pieces([t][1..], [a][1..]) == Ok([]);
    if EncodeWord(t, a).Ok? {
      var p := InHead(EncodeWord(t, a).value);
      assert [p] + [] == [p];
    }
  }

  lemma {:induction false} TwoWords(a: Arg, b: Arg)
    ensures EncodeAll([Address, Uint(256)], [a, b]) ==
      var x, y := EncodeWord(Address, a), EncodeWord(Uint(256), b);
      if x.Ok? && y.Ok? then Ok(x.value + y.value) else Fail
  {
    var ts, args := [Address, Uint(256)], [a, b];
    var x, y := EncodeWord(Address, a), EncodeWord(Uint(256), b);
    assert ts[1..] == [Uint(256)] && args[1..] == [b];
    assert Encode(Address, a) == x;
    OneWord(Uint(256), b);
    if x.Ok? && y.Ok? {
      assert Pieces(ts, args).value == [InHead(x.value), InHead(y.value)];
      AssembleTwo(x.value, y.value);
    }
  }

  // ----- a type the string parser does not understand -----

  const PART := "bool)[][1"

  lemma {:induction false} PartIsOne()
    ensures SplitTopLevel(PART) == [PART]
  {
    assert "bool" + ")[][1" == PART && "[][1" + [] == "[][1";
    assert [] + "bool" == "bool" && "bool" + ")" == "bool)" && "bool)" + "[][1" == PART;
    SplitFlat("bool", ")[][1", 0, []);
    SplitOne(')', "[][1", 0, "bool");
    SplitFlat("[][1", [], -1, "bool)");
    TrimNothing(PART);
  }

  lemma {:induction false} PartRejected(a: Arg)
    ensures PieceOf(PART, a) == Fail
  {
    assert |PART| == 9 && PART[0] == 'b' && PART[1] == 'o' && PART[8] == '1';
    assert !HasSuffix(PART, "]") by { assert PART[8..][0] == '1'; }
    assert !HasSuffix(PART, "[]") by { assert PART[7..][1] == '1'; }
    assert !HasPrefix(PART, "(") by { assert PART[..1][0] == 'b'; }
    NoNumberAfter("uint", PART, 0);
    NoNumberAfter("int", PART, 0);
    NoNumberAfter("bytes", PART, 1);
  }

  lemma {:induction false} OneFails(s: string, a: Arg)
    requires PieceOf(s, a) == Fail
    ensures EncodeArgs([s], [a]) == Fail
  {
    assert PiecesOf([s], [a]) == Fail;
  }

  lemma {:induction false} PartIsStatic()
    ensures IsDynamic(PART) == Some(false)
    ensures AnyDynamic([PART], |PART|) == Some(false)
  {
    assert |PART| == 9 && PART[0] == 'b' && PART[8] == '1';
    assert !HasSuffix(PART, "]") by { assert PART[8..][0] == '1'; }
    assert !HasSuffix(PART, "[]") by { assert PART[7..][1] == '1'; }
    assert !HasPrefix(PART, "(") by { assert PART[..1][0] == 'b'; }
    assert [PART][1..] == [];
  }

  lemma {:induction false} CutWrongly(s: string, inner: Arg)
    requires HasPrefix(s, "(") && |s| >= 2 && s[1..|s| - 1] == PART && s[|s| - 1] == ']'
    requires !HasSuffix(s, "[]") && s != "bytes" && s != "string" && ParseFixedArray(s) == None
    ensures PieceOf(s, List([inner])) == Fail
  {
    PartIsOne();
    PartIsStatic();
    PartRejected(inner);
    OneFails(PART, inner);
    NotWordType(s);
    assert EncodeTuple(s, List([inner])) == Fail;
  }

  /** "(bool)[][1]": that value has an encoding, but the string encoder rejects it, because the
      fixed-size suffix on a tuple array is not recognised. */
  lemma {:induction false} TupleArraySuffixRejected()
    ensures var t, a := FixedArray(Array(Tuple([Bool])), 1), List([List([])]);
      WellFormed(t) && Accepts(t, a) && Encode(t, a).Ok? && EncodeArgs([Render(t)], [a]) == Fail
  {
    var e, a := Array(Tuple([Bool])), List([List([])]);
    var t := FixedArray(e, 1);
    SuffixRejected(e, t, a);
  }

  lemma {:induction false} SuffixRejected(e: Ty, t: Ty, a: Arg)
    requires e == Array(Tuple([Bool])) && t == FixedArray(e, 1) && WellFormed(t) && a == List([List([])])
    ensures EncodeArgs([Render(t)], [a]) == Fail
  {
    FixedOfTupleArray(e, 1);
    FixedIsNotArraySuffix(e, 1);
    StartsWithParen(t);
    Spelled(t);
    CutWrongly(Render(t), List([]));
    OneFails(Render(t), a);
  }


  lemma {:induction false} Spelled(t: Ty)
    requires t == FixedArray(Array(Tuple([Bool])), 1)
    ensures |Render(t)| == 11 && Render(t)[1..10] == PART && Render(t)[10] == ']'
  {
    var u := Tuple([Bool]);
    assert Join([Bool]) == "bool";
    assert Render(u) == "(bool)";
    assert Render(Array(u)) == "(bool)[]";
    DecimalOne();
    assert Render(t) == "(bool)[][1]";
  }

  lemma {:induction false} DecimalOne()
    ensures Decimal(1) == "1"
  {
    assert Digits(1, 10) == Digits(0, 10) + [1];
  }
}
