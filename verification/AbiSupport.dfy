/** Exactly which types the string-driven encoder of chain/abi.go supports.

    A fixed-size suffix on a tuple array sends the string encoder into the middle of the type: it
    cuts off the first and the last character and goes on with text that closes more parentheses
    than it opens.  Such text never encodes an argument without empty lists, however deep the
    dispatch follows it, so every unsupported type has a good value that is refused. */
module AbiSupport {
  import opened Options
  import opened Sequences
  import opened Numerals
  import opened IntText
  import opened AbiTypes
  import opened AbiWords
  import opened AbiCodec
  import opened AbiEncoder

  // ----- parentheses -----

  function Turn(c: char): int { if c == '(' then 1 else if c == ')' then -1 else 0 }

  /** Opened minus closed parentheses. */
  function Net(s: string): int { if s == [] then 0 else Turn(s[0]) + Net(s[1..]) }

  lemma {:induction false} NetConcat(u: string, v: string)
    ensures Net(u + v) == Net(u) + Net(v)
  {
    if u == [] {
      assert u + v == v;
    } else {
      assert (u + v)[1..] == u[1..] + v;
      NetConcat(u[1..], v);
    }
  }

  lemma {:induction false} NetFlat(s: string)
    requires forall i :: 0 <= i < |s| ==> s[i] != '(' && s[i] != ')'
    ensures Net(s) == 0
  {
    if s != [] {
      NetFlat(s[1..]);
    }
  }

  lemma {:induction false} NetCut(s: string, k: nat)
    requires k <= |s|
    ensures Net(s) == Net(s[..k]) + Net(s[k..])
  {
    assert s == s[..k] + s[k..];
    NetConcat(s[..k], s[k..]);
  }

  lemma {:induction false} NetOne(c: char)
    ensures Net([c]) == Turn(c)
  {
    assert [c][1..] == [];
  }

  /** Without its first and last character. */
  lemma {:induction false} NetInner(s: string)
    requires |s| >= 2
    ensures Net(s[1..|s| - 1]) == Net(s) - Turn(s[0]) - Turn(s[|s| - 1])
  {
    NetCut(s[1..], |s| - 2);
    assert s[1..][..|s| - 2] == s[1..|s| - 1] && s[1..][|s| - 2..] == [s[|s| - 1]];
    NetOne(s[|s| - 1]);
  }

  lemma {:induction false} NetTrimLeft(s: string)
    ensures Net(TrimLeft(s)) == Net(s)
  {
    if s != [] && IsSpace(s[0]) {
      NetTrimLeft(s[1..]);
    }
  }

  lemma {:induction false} NetTrimRight(s: string)
    ensures Net(TrimRight(s)) == Net(s)
  {
    if s != [] && IsSpace(s[|s| - 1]) {
      NetTrimRight(s[..|s| - 1]);
      NetCut(s, |s| - 1);
      assert s[|s| - 1..] == [s[|s| - 1]];
      NetOne(s[|s| - 1]);
    }
  }

  function NetAll(parts: seq<string>): int { if parts == [] then 0 else Net(parts[0]) + NetAll(parts[1..]) }

  /** Splitting at commas loses no parenthesis. */
  lemma {:induction false} NetSplit(s: string, depth: int, cur: string)
    ensures NetAll(Split(s, depth, cur)) == Net(cur) + Net(s)
  {
    if s == [] {
      NetTrimLeft(cur);
      NetTrimRight(TrimLeft(cur));
      assert [Trim(cur)][1..] == [];
    } else if s[0] == ',' && depth == 0 {
      NetTrimLeft(cur);
      NetTrimRight(TrimLeft(cur));
      NetSplit(s[1..], 0, []);
      var rest := Split(s[1..], 0, []);
      assert ([Trim(cur)] + rest)[1..] == rest;
    } else {
      NetConcat(cur, [s[0]]);
      NetOne(s[0]);
      NetSplit(s[1..], if s[0] == '(' then depth + 1 else if s[0] == ')' then depth - 1 else depth, cur + [s[0]]);
    }
  }

  lemma {:induction false} SomeNegative(parts: seq<string>) returns (i: nat)
    requires NetAll(parts) < 0
    ensures i < |parts| && Net(parts[i]) < 0
  {
    if Net(parts[0]) < 0 {
      i := 0;
    } else {
      i := SomeNegative(parts[1..]);
      i := i + 1;
    }
  }

  // ----- the parsers and parentheses -----

  lemma {:induction false} NetAtoi(s: string)
    requires Atoi(s).Some?
    ensures Net(s) == 0
  {
    if s[0] == '+' || s[0] == '-' {
      assert forall i :: 0 < i < |s| ==> s[i] == s[1..][i - 1];
    }
    NetFlat(s);
  }

  lemma {:induction false} NetBrackets(u: string, inner: string)
    requires Net(inner) == 0
    ensures Net(u + ("[" + inner + "]")) == Net(u)
  {
    NetConcat(u, "[" + inner + "]");
    NetConcat("[" + inner, "]");
    NetConcat("[", inner);
    NetOne('[');
    NetOne(']');
  }

  lemma {:induction false} SuffixParts(s: string, k: nat)
    requires k + 2 <= |s| && s[k] == '[' && s[|s| - 1] == ']'
    ensures s == s[..k] + ("[" + s[k + 1..|s| - 1] + "]")
  {
  }

  /** A fixed-size suffix holds no parentheses. */
  lemma {:induction false} NetFixed(s: string)
    requires ParseFixedArray(s).Some?
    ensures Net(ParseFixedArray(s).value.0) == Net(s)
  {
    if HasPrefix(s, "(") {
      var k := Close(s, 0).value + 1;
      var suffix := s[k..];
      assert suffix[1..|suffix| - 1] == s[k + 1..|s| - 1];
      NetAtoi(s[k + 1..|s| - 1]);
      SuffixParts(s, k);
      NetBrackets(s[..k], s[k + 1..|s| - 1]);
    } else {
      var k := LastIndex(s, '[').value;
      assert s[|s| - 1..][0] == ']';
      NetFlat(s[k + 1..|s| - 1]);
      SuffixParts(s, k);
      NetBrackets(s[..k], s[k + 1..|s| - 1]);
    }
  }

  lemma {:induction false} NetNumberAfter(p: string, s: string)
    requires NumberAfter(p, s).Some? && Net(p) == 0
    ensures Net(s) == 0
  {
    NetCut(s, |p|);
    NetFlat(s[|p|..]);
  }

  lemma {:induction false} NetNames()
    ensures Net("address") == 0 && Net("bool") == 0 && Net("uint") == 0 && Net("int") == 0 && Net("bytes") == 0
  {
    NetFlat("address");
    NetFlat("bool");
    NetFlat("uint");
    NetFlat("int");
    NetFlat("bytes");
  }

  lemma {:induction false} NetWordType(s: string)
    requires ParseWordType(s).Some?
    ensures Net(s) == 0
  {
    NetNames();
    if NumberAfter("uint", s).Some? {
      NetNumberAfter("uint", s);
    } else if NumberAfter("int", s).Some? {
      NetNumberAfter("int", s);
    } else if NumberAfter("bytes", s).Some? {
      NetNumberAfter("bytes", s);
    }
  }

  lemma {:induction false} NetArraySuffix(s: string)
    requires HasSuffix(s, "[]")
    ensures Net(s[..|s| - 2]) == Net(s)
  {
    NetCut(s, |s| - 2);
    NetFlat("[]");
  }

  // ----- text that closes too much -----

  predicate NoEmptyList(a: Arg) {
    a.List? ==> a.items != [] && forall i :: 0 <= i < |a.items| ==> NoEmptyList(a.items[i])
  }

  lemma {:induction false} EachPiece(types: seq<string>, args: seq<Arg>, i: nat)
    requires |types| == |args| && i < |types| && PiecesOf(types, args).Ok?
    ensures PieceOf(types[i], args[i]).Ok?
  {
    if i > 0 {
      EachPiece(types[1..], args[1..], i - 1);
    }
  }

  lemma {:induction false} OneBadPiece(types: seq<string>, args: seq<Arg>, i: nat)
    requires |types| == |args| && i < |types| && !PieceOf(types[i], args[i]).Ok?
    ensures !EncodeArgs(types, args).Ok?
  {
    if PiecesOf(types, args).Ok? {
      EachPiece(types, args, i);
    }
  }

  lemma {:induction false} JunkItems(elem: string, a: Arg)
    requires Net(elem) < 0 && NoEmptyList(a) && a.List?
    ensures !EncodeArgs(Repeat(elem, |a.items|), a.items).Ok?
    decreases a, 1
  {
    JunkFails(elem, a.items[0]);
    OneBadPiece(Repeat(elem, |a.items|), a.items, 0);
  }

  lemma {:induction false} JunkTuple(s: string, a: Arg)
    requires |s| >= 2 ==> Net(s[1..|s| - 1]) < 0
    requires NoEmptyList(a)
    ensures !EncodeTuple(s, a).Ok?
    decreases a, 1
  {
    if |s| >= 2 && a.List? {
      var inner := s[1..|s| - 1];
      var types := SplitTopLevel(inner);
      if |a.items| == |types| {
        NetSplit(inner, 0, []);
        var i := SomeNegative(types);
        JunkFails(types[i], a.items[i]);
        OneBadPiece(types, a.items, i);
      }
    }
  }

  lemma {:induction false} JunkStatic(s: string, a: Arg)
    requires Net(s) < 0 && NoEmptyList(a)
    ensures !EncodeStatic(s, a).Ok?
    decreases a, 2
  {
    if ParseWordType(s).Some? {
      NetWordType(s);
    }
    if ParseFixedArray(s).Some? {
      NetFixed(s);
      if a.List? {
        JunkItems(ParseFixedArray(s).value.0, a);
      }
    }
    if HasPrefix(s, "(") {
      JunkInner(s);
      JunkTuple(s, a);
    }
  }

  lemma {:induction false} JunkInner(s: string)
    requires Net(s) < 0 && HasPrefix(s, "(")
    ensures |s| >= 2 ==> Net(s[1..|s| - 1]) < 0
  {
    if |s| >= 2 {
      NetInner(s);
      assert s[..1][0] == '(';
    }
  }

  lemma {:induction false} JunkDynamic(s: string, a: Arg)
    requires Net(s) < 0 && NoEmptyList(a)
    ensures !EncodeDynamic(s, a).Ok?
    decreases a, 2
  {
    NetFlat("bytes");
    NetFlat("string");
    if HasSuffix(s, "[]") {
      NetArraySuffix(s);
      if a.List? {
        JunkItems(s[..|s| - 2], a);
      }
    } else if ParseFixedArray(s).Some? {
      NetFixed(s);
      if a.List? {
        JunkItems(ParseFixedArray(s).value.0, a);
      }
    } else if HasPrefix(s, "(") {
      JunkInner(s);
      JunkTuple(s, a);
    }
  }

  /** Text that closes more than it opens encodes no argument without empty lists. */
  lemma {:induction false} JunkFails(s: string, a: Arg)
    requires Net(s) < 0 && NoEmptyList(a)
    ensures !PieceOf(s, a).Ok?
    decreases a, 3
  {
    JunkStatic(s, a);
    JunkDynamic(s, a);
  }

  // ----- printed types -----

  lemma {:induction false} NetRender(t: Ty)
    requires WellFormed(t)
    ensures Net(Render(t)) == 0
    decreases t, 0
  {
    match t
    case Array(e) =>
      NetRender(e);
      NetConcat(Render(e), "[]");
      NetFlat("[]");
    case FixedArray(e, n) =>
      NetRender(e);
      NetFlat(Decimal(n));
      NetBrackets(Render(e), Decimal(n));
    case Tuple(ts) =>
      NetJoin(ts);
      NetConcat("(" + Join(ts), ")");
      NetConcat("(", Join(ts));
      NetOne('(');
      NetOne(')');
    case _ =>
      NetFlat(Render(t));
  }

  lemma {:induction false} NetJoin(ts: seq<Ty>)
    requires forall i :: 0 <= i < |ts| ==> WellFormed(ts[i])
    ensures Net(Join(ts)) == 0
    decreases ts, 1
  {
    if |ts| == 1 {
      NetRender(ts[0]);
    } else if ts != [] {
      NetRender(ts[0]);
      NetJoin(ts[1..]);
      NetConcat(Render(ts[0]) + ",", Join(ts[1..]));
      NetConcat(Render(ts[0]), ",");
      NetOne(',');
    }
  }

  // ----- unsupported types -----

  lemma {:induction false} BadItem(elem: string, a: Arg)
    requires a.List? && a.items != [] && !PieceOf(elem, a.items[0]).Ok?
    ensures !EncodeArgs(Repeat(elem, |a.items|), a.items).Ok?
  {
    OneBadPiece(Repeat(elem, |a.items|), a.items, 0);
  }

  lemma {:induction false} ArrayUnsupported(e: Ty, a: Arg)
    requires WellFormed(e) && !Supported(e) && Accepts(Array(e), a) && NoEmptyList(a)
    ensures !PieceOf(Render(Array(e)), a).Ok?
    decreases a, 0
  {
    var s := Render(Array(e));
    UnsupportedFails(e, a.items[0]);
    BadItem(Render(e), a);
    ArrayDispatch(s, Render(e), a);
    ArraySuffix(Render(e));
  }

  /** A fixed-size suffix the parser recognises, over an unsupported element. */
  lemma {:induction false} FixedUnsupported(e: Ty, n: nat, a: Arg)
    requires WellFormed(FixedArray(e, n)) && !Supported(e) && (TupleBased(e) ==> e.Tuple?)
    requires Accepts(FixedArray(e, n), a) && NoEmptyList(a)
    ensures !PieceOf(Render(FixedArray(e, n)), a).Ok?
    decreases a, 0
  {
    var s := Render(FixedArray(e, n));
    UnsupportedFails(e, a.items[0]);
    BadItem(Render(e), a);
    assert !EncodeFixed(Render(e), n, a).Ok?;
    FixedArrayRecognised(e, n);
    FixedIsNotArraySuffix(e, n);
    assert s[|s| - 1] == ']';
    NotWordType(s);
  }

  /** A fixed-size suffix the parser does not recognise. */
  lemma {:induction false} SuffixUnsupported(e: Ty, n: nat, a: Arg)
    requires WellFormed(FixedArray(e, n)) && TupleBased(e) && !e.Tuple? && NoEmptyList(a)
    ensures !PieceOf(Render(FixedArray(e, n)), a).Ok?
  {
    var t := FixedArray(e, n);
    var s := Render(t);
    FixedOfTupleArray(e, n);
    FixedIsNotArraySuffix(e, n);
    StartsWithParen(t);
    assert |s| >= 2 && s[|s| - 1] == ']';
    NotWordType(s);
    NetRender(t);
    NetInner(s);
    JunkTuple(s, a);
  }

  lemma {:induction false} TupleUnsupported(ts: seq<Ty>, a: Arg, i: nat)
    requires WellFormed(Tuple(ts)) && i < |ts| && !Supported(ts[i]) && Accepts(Tuple(ts), a) && NoEmptyList(a)
    ensures !PieceOf(Render(Tuple(ts)), a).Ok?
    decreases a, 0
  {
    var s := Render(Tuple(ts));
    UnsupportedFails(ts[i], a.items[i]);
    TupleIsNotArraySuffix(ts);
    NotFixedTuple(ts);
    SplitJoin(ts);
    OneBadPiece(RenderAll(ts), a.items, i);
    assert !EncodeTuple(s, a).Ok?;
    assert s[|s| - 1] == ')';
    NotWordType(s);
  }

  /** Every value of an unsupported type that has no empty list in it is refused. */
  lemma {:induction false} UnsupportedFails(t: Ty, a: Arg)
    requires WellFormed(t) && !Supported(t) && Accepts(t, a) && NoEmptyList(a)
    ensures !PieceOf(Render(t), a).Ok?
    decreases a, 1
  {
    match t
    case Array(e) => ArrayUnsupported(e, a);
    case FixedArray(e, n) =>
      if TupleBased(e) && !e.Tuple? {
        SuffixUnsupported(e, n, a);
      } else {
        FixedUnsupported(e, n, a);
      }
    case Tuple(ts) =>
      var i :| 0 <= i < |ts| && !Supported(ts[i]);
      TupleUnsupported(ts, a, i);
  }

  // ----- every type has such a value -----

  function Sample(t: Ty): (a: Arg)
    decreases t, 0
  {
    match t
    case Bool => Flag(true)
    case Uint(_) => Num(0)
    case Int(_) => Num(0)
    case Array(e) => List([Sample(e)])
    case FixedArray(e, n) => List(Repeat(Sample(e), n))
    case Tuple(ts) => List(Samples(ts))
    case _ => Blob([])
  }

  function Samples(ts: seq<Ty>): (args: seq<Arg>)
    ensures |args| == |ts|
    ensures forall i :: 0 <= i < |ts| ==> args[i] == Sample(ts[i])
    decreases ts, 1
  {
    if ts == [] then [] else [Sample(ts[0])] + Samples(ts[1..])
  }

  lemma {:induction false} SampleGood(t: Ty)
    requires WellFormed(t)
    ensures Accepts(t, Sample(t)) && NoEmptyList(Sample(t))
  {
    match t
    case Array(e) => SampleGood(e);
    case FixedArray(e, n) => SampleGood(e);
    case Tuple(ts) =>
      forall i | 0 <= i < |ts| ensures Accepts(ts[i], Sample(ts[i])) && NoEmptyList(Sample(ts[i])) {
        SampleGood(ts[i]);
      }
    case _ =>
  }

  lemma {:induction false} SampleRefused(t: Ty)
    requires WellFormed(t) && !Supported(t)
    ensures EncodeArgs([Render(t)], [Sample(t)]) != EncodeAll([t], [Sample(t)])
  {
    SampleGood(t);
    UnsupportedFails(t, Sample(t));
    OneBadPiece([Render(t)], [Sample(t)], 0);
    PiecesAccept([t], [Sample(t)]);
  }

  lemma {:induction false} SupportedAgrees(t: Ty, a: Arg)
    requires WellFormed(t) && Supported(t)
    ensures EncodeArgs([Render(t)], [a]) == EncodeAll([t], [a])
  {
    ArgsAgree([t], [a]);
    assert RenderAll([t]) == [Render(t)];
  }

  /** The string encoder computes the encoding of a type, for all arguments, if and only if no
      fixed-size suffix stands on a tuple that already carries an array suffix, at any depth. */
  lemma {:induction false} SupportedExactly(t: Ty)
    requires WellFormed(t)
    ensures (forall a :: EncodeArgs([Render(t)], [a]) == EncodeAll([t], [a])) <==> Supported(t)
  {
    if Supported(t) {
      forall a ensures EncodeArgs([Render(t)], [a]) == EncodeAll([t], [a]) {
        SupportedAgrees(t, a);
      }
    } else {
      SampleRefused(t);
    }
  }
}
