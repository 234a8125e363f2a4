/** Solidity type strings (chain/abi.go): splitting, suffix parsing and the dynamic/static test.

    The source works on type strings throughout.  `Ty` is the grammar behind those strings and
    `Render` prints it; the results say that the string functions recover from a printed type
    exactly what the grammar says about it, and for which types they do not. */
module AbiTypes {
  import opened Options
  import opened Sequences
  import opened Numerals
  import opened IntText

  datatype Ty =
    | Address
    | Bool
    | Uint(bits: nat)
    | Int(bits: nat)
    | FixedBytes(n: nat)
    | Bytes
    | Text
    | Array(elem: Ty)
    | FixedArray(elem: Ty, size: nat)
    | Tuple(elems: seq<Ty>)

  const MAX_INT := 0x7fff_ffff_ffff_ffff

  /** The types of the Solidity grammar; sizes must be positive and fit a machine integer. */
  predicate WellFormed(t: Ty) {
    match t
    case Uint(b) => 0 < b <= 256 && b % 8 == 0
    case Int(b) => 0 < b <= 256 && b % 8 == 0
    case FixedBytes(n) => 0 < n <= 32
    case Array(e) => WellFormed(e)
    case FixedArray(e, n) => WellFormed(e) && 0 < n <= MAX_INT
    case Tuple(ts) => ts != [] && forall i :: 0 <= i < |ts| ==> WellFormed(ts[i])
    case _ => true
  }

  /** Whether the type, stripped of its array suffixes, is a tuple. */
  predicate TupleBased(t: Ty) {
    match t
    case Array(e) => TupleBased(e)
    case FixedArray(e, _) => TupleBased(e)
    case Tuple(_) => true
    case _ => false
  }

  /** No fixed-size suffix on a tuple that already carries an array suffix: "(T)[][3]" is out. */
  predicate Supported(t: Ty) {
    match t
    case Array(e) => Supported(e)
    case FixedArray(e, _) => Supported(e) && (TupleBased(e) ==> e.Tuple?)
    case Tuple(ts) => forall i :: 0 <= i < |ts| ==> Supported(ts[i])
    case _ => true
  }

  /** The structural definition of "dynamic" in the Solidity ABI specification. */
  predicate Dynamic(t: Ty) {
    match t
    case Bytes => true
    case Text => true
    case Array(_) => true
    case FixedArray(e, _) => Dynamic(e)
    case Tuple(ts) => exists i :: 0 <= i < |ts| && Dynamic(ts[i])
    case _ => false
  }

  // ----- printing -----

  /** The suffix of a fixed-size array. */
  function Size(n: nat): (s: string)
    ensures |s| >= 2 && s[0] == '[' && s[|s| - 1] == ']'
  {
    "[" + Decimal(n) + "]"
  }

  function Render(t: Ty): (s: string)
    decreases t, 0
  {
    match t
    case Address => "address"
    case Bool => "bool"
    case Uint(b) => "uint" + Decimal(b)
    case Int(b) => "int" + Decimal(b)
    case FixedBytes(n) => "bytes" + Decimal(n)
    case Bytes => "bytes"
    case Text => "string"
    case Array(e) => Render(e) + "[]"
    case FixedArray(e, n) => Render(e) + Size(n)
    case Tuple(ts) => "(" + Join(ts) + ")"
  }

  function Join(ts: seq<Ty>): (s: string)
    decreases ts, 1
  {
    if ts == [] then ""
    else if |ts| == 1 then Render(ts[0])
    else Render(ts[0]) + "," + Join(ts[1..])
  }

  function RenderAll(ts: seq<Ty>): (ss: seq<string>)
    ensures |ss| == |ts|
    ensures forall i :: 0 <= i < |ts| ==> ss[i] == Render(ts[i])
  {
    seq(|ts|, i requires 0 <= i < |ts| => Render(ts[i]))
  }

  // ----- string helpers of the source's libraries -----

  predicate HasPrefix(s: string, p: string) { |p| <= |s| && s[..|p|] == p }

  predicate HasSuffix(s: string, p: string) { |p| <= |s| && s[|s| - |p|..] == p }

  predicate IsSpace(c: char) {
    c == ' ' || c == '\t' || c == '\n' || c == '\r' || c as int == 11 || c as int == 12
    || c as int == 0x85 || c as int == 0xA0
  }

  function TrimLeft(s: string): (r: string)
    ensures |r| <= |s|
  {
    if s != [] && IsSpace(s[0]) then TrimLeft(s[1..]) else s
  }

  function TrimRight(s: string): (r: string)
    ensures |r| <= |s|
  {
    if s != [] && IsSpace(s[|s| - 1]) then TrimRight(s[..|s| - 1]) else s
  }

  function Trim(s: string): (r: string)
    ensures |r| <= |s|
  {
    TrimRight(TrimLeft(s))
  }

  /** strconv.Atoi: an optional sign, digits, and a value in the range of a 64-bit integer. */
  function Atoi(s: string): (r: Option<int>) {
    var n := ParseDecimal(s);
    if n.Some? && -MAX_INT - 1 <= n.value <= MAX_INT then n else None
  }

  lemma {:induction false} AtoiOfDecimal(n: nat)
    requires 0 < n <= MAX_INT
    ensures Atoi(Decimal(n)) == Some(n)
  {
    NumberOfDecimal(n);
  }

  // ----- splitTopLevel -----

  /** The scan: `depth` parentheses are open, `cur` is the part being read. */
  function Split(s: string, depth: int, cur: string): (parts: seq<string>)
    ensures parts != []
    ensures forall i :: 0 <= i < |parts| ==> |parts[i]| <= |cur| + |s|
  {
    if s == [] then [Trim(cur)]
    else if s[0] == '(' then Split(s[1..], depth + 1, cur + [s[0]])
    else if s[0] == ')' then Split(s[1..], depth - 1, cur + [s[0]])
    else if s[0] == ',' && depth == 0 then [Trim(cur)] + Split(s[1..], 0, [])
    else Split(s[1..], depth, cur + [s[0]])
  }

  function SplitTopLevel(s: string): (parts: seq<string>)
    ensures parts != []
    ensures forall i :: 0 <= i < |parts| ==> |parts[i]| <= |s|
  {
    Split(s, 0, [])
  }

  method SplitLoop(s: string) returns (parts: seq<string>)
    ensures parts == SplitTopLevel(s)
  {
    parts := [];
    var depth, start := 0, 0;
    for i := 0 to |s|
      invariant start <= i
      invariant parts + Split(s[i..], depth, s[start..i]) == SplitTopLevel(s)
    {
      assert s[i..][1..] == s[i + 1..] && s[start..i] + [s[i]] == s[start..i + 1];
      if s[i] == '(' {
        depth := depth + 1;
      } else if s[i] == ')' {
        depth := depth - 1;
      } else if s[i] == ',' && depth == 0 {
        parts := parts + [Trim(s[start..i])];
        start := i + 1;
        assert s[start..i + 1] == [];
      }
    }
    assert s[|s|..] == [] && s[start..] == s[start..|s|];
    parts := parts + [Trim(s[start..])];
  }

  // ----- parseFixedArray -----

  /** Offset of the ')' that brings the depth back to zero. */
  function Close(s: string, depth: int): (k: Option<nat>)
    ensures k.Some? ==> k.value < |s|
  {
    if s == [] then None
    else if s[0] == ')' && depth == 1 then Some(0)
    else
      var k := Close(s[1..], if s[0] == '(' then depth + 1 else if s[0] == ')' then depth - 1 else depth);
      if k.Some? then Some(k.value + 1) else None
  }

  function LastIndex(s: string, c: char): (k: Option<nat>)
    ensures k.Some? ==> k.value < |s| && s[k.value] == c
  {
    if s == [] then None
    else if s[|s| - 1] == c then Some(|s| - 1)
    else LastIndex(s[..|s| - 1], c)
  }

  /** The regular expression ^(.+)\[(\d+)\]$ : element type and digits. */
  function MatchSuffix(s: string): (r: Option<(string, string)>)
    ensures r.Some? ==> |r.value.0| < |s| && AllDigits(r.value.1)
  {
    if !HasSuffix(s, "]") then None
    else
      var k := LastIndex(s, '[');
      if k.None? || k.value == 0 || '\n' in s[..k.value] || !AllDigits(s[k.value + 1..|s| - 1]) then None
      else Some((s[..k.value], s[k.value + 1..|s| - 1]))
  }

  function ParseFixedArray(s: string): (r: Option<(string, nat)>)
    ensures r.Some? ==> |r.value.0| < |s|
  {
    if HasPrefix(s, "(") then
      var k := Close(s, 0);
      if k.None? then None
      else
        var suffix := s[k.value + 1..];
        if |suffix| >= 3 && suffix[0] == '[' && suffix[|suffix| - 1] == ']' then
          var n := Atoi(suffix[1..|suffix| - 1]);
          if n.Some? && n.value > 0 then Some((s[..k.value + 1], n.value)) else None
        else None
    else
      var m := MatchSuffix(s);
      if m.None? then None
      else
        var n := Atoi(m.value.1);
        if n.None? || n.value == 0 then None else Some((m.value.0, n.value))
  }

  // ----- isDynamic -----

  /** `None` is the out-of-range slice the source takes for a lone opening parenthesis. */
  function IsDynamic(s: string): (r: Option<bool>)
    decreases |s|, 0
  {
    if s == "bytes" || s == "string" || HasSuffix(s, "[]") then Some(true)
    else
      var m := ParseFixedArray(s);
      if m.Some? then IsDynamic(m.value.0)
      else if HasPrefix(s, "(") then
        if |s| < 2 then None else AnyDynamic(SplitTopLevel(s[1..|s| - 1]), |s| - 2)
      else Some(false)
  }

  function AnyDynamic(parts: seq<string>, ghost bound: nat): (r: Option<bool>)
    requires forall i :: 0 <= i < |parts| ==> |parts[i]| <= bound
    decreases bound, |parts| + 1
  {
    if parts == [] then Some(false)
    else
      var first := IsDynamic(parts[0]);
      if first == Some(false) then AnyDynamic(parts[1..], bound) else first
  }

  // ----- what printed types look like -----

  predicate Letter(c: char) { 'a' <= c <= 'z' || '0' <= c <= '9' }

  predicate TypeChar(c: char) { Letter(c) || c == '(' || c == ')' || c == ',' || c == '[' || c == ']' }

  predicate Elementary(t: Ty) { !t.Array? && !t.FixedArray? && !t.Tuple? }

  lemma {:induction false} RenderChars(t: Ty)
    requires WellFormed(t)
    ensures Render(t) != [] && forall i :: 0 <= i < |Render(t)| ==> TypeChar(Render(t)[i])
    decreases t, 0
  {
    match t
    case Array(e) => RenderChars(e);
    case FixedArray(e, n) => RenderChars(e);
    case Tuple(ts) => JoinChars(ts);
    case _ =>
  }

  lemma {:induction false} JoinChars(ts: seq<Ty>)
    requires forall i :: 0 <= i < |ts| ==> WellFormed(ts[i])
    ensures forall i :: 0 <= i < |Join(ts)| ==> TypeChar(Join(ts)[i])
    decreases ts, 1
  {
    if ts != [] {
      RenderChars(ts[0]);
      JoinChars(ts[1..]);
    }
  }

  lemma {:induction false} TrimNothing(s: string)
    requires forall i :: 0 <= i < |s| ==> TypeChar(s[i])
    ensures Trim(s) == s
  {
  }

  lemma {:induction false} StartsWithParen(t: Ty)
    requires WellFormed(t)
    ensures HasPrefix(Render(t), "(") <==> TupleBased(t)
    ensures Render(t) != [] && (Render(t)[0] == '(' <==> TupleBased(t))
  {
    match t
    case Array(e) => StartsWithParen(e);
    case FixedArray(e, n) => StartsWithParen(e);
    case Tuple(ts) => assert Render(t)[0] == '(';
    case _ =>
      assert Render(t)[..1][0] == Render(t)[0];
  }

  // ----- splitting a printed list gives its parts -----

  predicate Flat(s: string) {
    forall i :: 0 <= i < |s| ==> s[i] != '(' && s[i] != ')' && s[i] != ','
  }

  lemma {:induction false} SplitFlat(w: string, rest: string, d: int, cur: string)
    requires Flat(w)
    ensures Split(w + rest, d, cur) == Split(rest, d, cur + w)
  {
    if w == [] {
      assert w + rest == rest && cur + w == cur;
    } else {
      var s := w + rest;
      assert s[0] == w[0] && s[1..] == w[1..] + rest;
      SplitFlat(w[1..], rest, d, cur + [w[0]]);
      assert cur + [w[0]] + w[1..] == cur + w;
    }
  }

  /** One character that is not a separating comma: it joins the current part. */
  lemma {:induction false} SplitOne(c: char, rest: string, d: int, cur: string)
    requires c == ',' ==> d != 0
    ensures Split([c] + rest, d, cur) ==
      Split(rest, if c == '(' then d + 1 else if c == ')' then d - 1 else d, cur + [c])
  {
    assert ([c] + rest)[0] == c && ([c] + rest)[1..] == rest;
  }

  lemma {:induction false} SplitSuffixed(u: string, w: string, rest: string, d: int, cur: string)
    requires Flat(w)
    requires Split(u + (w + rest), d, cur) == Split(w + rest, d, cur + u)
    ensures Split((u + w) + rest, d, cur) == Split(rest, d, cur + (u + w))
  {
    SplitFlat(w, rest, d, cur + u);
    ConcatAssoc(u, w, rest);
    ConcatAssoc(cur, u, w);
  }

  lemma {:induction false} SplitParens(inner: string, rest: string, d: int, cur: string)
    requires Split(inner + (")" + rest), d + 1, cur + "(") == Split(")" + rest, d + 1, cur + "(" + inner)
    ensures Split(("(" + inner + ")") + rest, d, cur) == Split(rest, d, cur + ("(" + inner + ")"))
  {
    SplitOne('(', inner + (")" + rest), d, cur);
    SplitOne(')', rest, d + 1, cur + "(" + inner);
    assert ("(" + inner + ")") + rest == "(" + (inner + (")" + rest));
    assert cur + "(" + inner + ")" == cur + ("(" + inner + ")");
  }

  /** A printed type is scanned as a whole at any non-negative depth. */
  lemma {:induction false} SplitType(t: Ty, rest: string, d: nat, cur: string)
    requires WellFormed(t)
    ensures Split(Render(t) + rest, d, cur) == Split(rest, d, cur + Render(t))
    decreases t, 0
  {
    match t
    case Array(e) =>
      SplitType(e, "[]" + rest, d, cur);
      SplitSuffixed(Render(e), "[]", rest, d, cur);
    case FixedArray(e, n) =>
      SplitType(e, Size(n) + rest, d, cur);
      SplitSuffixed(Render(e), Size(n), rest, d, cur);
    case Tuple(ts) =>
      SplitList(ts, ")" + rest, d + 1, cur + "(");
      SplitParens(Join(ts), rest, d, cur);
    case _ =>
      SplitFlat(Render(t), rest, d, cur);
  }

  lemma {:induction false} SplitPair(u: string, v: string, rest: string, d: int, cur: string)
    requires d != 0
    requires Split(u + ("," + (v + rest)), d, cur) == Split("," + (v + rest), d, cur + u)
    requires Split(v + rest, d, cur + u + ",") == Split(rest, d, cur + u + "," + v)
    ensures Split((u + "," + v) + rest, d, cur) == Split(rest, d, cur + (u + "," + v))
  {
    SplitOne(',', v + rest, d, cur + u);
    assert (u + "," + v) + rest == u + ("," + (v + rest));
    assert cur + u + "," + v == cur + (u + "," + v);
  }

  /** Inside parentheses a printed list is scanned as a whole too. */
  lemma {:induction false} SplitList(ts: seq<Ty>, rest: string, d: nat, cur: string)
    requires forall i :: 0 <= i < |ts| ==> WellFormed(ts[i])
    requires d > 0
    ensures Split(Join(ts) + rest, d, cur) == Split(rest, d, cur + Join(ts))
    decreases ts, 1
  {
    if ts == [] {
      assert Join(ts) + rest == rest && cur + Join(ts) == cur;
    } else if |ts| == 1 {
      SplitType(ts[0], rest, d, cur);
    } else {
      var u, v := Render(ts[0]), Join(ts[1..]);
      SplitType(ts[0], "," + (v + rest), d, cur);
      SplitList(ts[1..], rest, d, cur + u + ",");
      SplitPair(u, v, rest, d, cur);
    }
  }

  lemma {:induction false} SplitComma(w: string, tail: string)
    requires Split(w + ("," + tail), 0, []) == Split("," + tail, 0, [] + w)
    requires Trim(w) == w
    ensures SplitTopLevel(w + "," + tail) == [w] + SplitTopLevel(tail)
  {
    var s := "," + tail;
    assert s[0] == ',' && s[1..] == tail;
    assert w + "," + tail == w + s && [] + w == w;
  }

  lemma {:induction false} RenderAllCons(ts: seq<Ty>)
    requires ts != []
    ensures RenderAll(ts) == [Render(ts[0])] + RenderAll(ts[1..])
  {
  }

  /** splitTopLevel undoes joining: it returns exactly the printed parts. */
  lemma {:induction false} SplitJoin(ts: seq<Ty>)
    requires ts != [] && forall i :: 0 <= i < |ts| ==> WellFormed(ts[i])
    ensures SplitTopLevel(Join(ts)) == RenderAll(ts)
  {
    var w := Render(ts[0]);
    RenderChars(ts[0]);
    TrimNothing(w);
    if |ts| == 1 {
      SplitType(ts[0], [], 0, []);
      assert w + [] == w && [] + w == w;
    } else {
      SplitType(ts[0], "," + Join(ts[1..]), 0, []);
      SplitComma(w, Join(ts[1..]));
      SplitJoin(ts[1..]);
      RenderAllCons(ts);
    }
  }

  // ----- the matching parenthesis of a printed tuple -----

  function Shift(k: Option<nat>, n: nat): Option<nat> {
    if k.Some? then Some(k.value + n) else None
  }

  /** The search for the closing parenthesis goes past `u` without finding it there. */
  predicate Passes(u: string, rest: string, d: int) {
    Close(u + rest, d) == Shift(Close(rest, d), |u|)
  }

  lemma {:induction false} CloseFlat(w: string, rest: string, d: int)
    requires Flat(w)
    ensures Passes(w, rest, d)
  {
    if w == [] {
      assert w + rest == rest;
    } else {
      var s := w + rest;
      assert s[0] == w[0] && s[1..] == w[1..] + rest;
      CloseFlat(w[1..], rest, d);
    }
  }

  lemma {:induction false} CloseOne(c: char, rest: string, d: int)
    requires c == ')' ==> d != 1
    ensures Close([c] + rest, d) ==
      Shift(Close(rest, if c == '(' then d + 1 else if c == ')' then d - 1 else d), 1)
  {
    assert ([c] + rest)[0] == c && ([c] + rest)[1..] == rest;
  }

  lemma {:induction false} CloseSuffixed(u: string, w: string, rest: string, d: int)
    requires Flat(w)
    requires Passes(u, w + rest, d)
    ensures Passes(u + w, rest, d)
  {
    CloseFlat(w, rest, d);
    ConcatAssoc(u, w, rest);
  }

  lemma {:induction false} CloseParens(inner: string, rest: string, d: nat)
    requires d > 0
    requires Passes(inner, ")" + rest, d + 1)
    ensures Passes("(" + inner + ")", rest, d)
  {
    CloseOne('(', inner + (")" + rest), d);
    CloseOne(')', rest, d + 1);
    assert ("(" + inner + ")") + rest == "(" + (inner + (")" + rest));
  }

  lemma {:induction false} CloseType(t: Ty, rest: string, d: nat)
    requires WellFormed(t) && d > 0
    ensures Passes(Render(t), rest, d)
    decreases t, 0
  {
    match t
    case Array(e) =>
      assert Render(t) == Render(e) + "[]";
      CloseType(e, "[]" + rest, d);
      CloseSuffixed(Render(e), "[]", rest, d);
    case FixedArray(e, n) =>
      assert Render(t) == Render(e) + Size(n);
      CloseType(e, Size(n) + rest, d);
      CloseSuffixed(Render(e), Size(n), rest, d);
    case Tuple(ts) =>
      assert Render(t) == "(" + Join(ts) + ")";
      CloseList(ts, ")" + rest, d + 1);
      CloseParens(Join(ts), rest, d);
    case _ =>
      CloseFlat(Render(t), rest, d);
  }

  lemma {:induction false} CloseComma(u: string, v: string, rest: string, d: int)
    requires Passes(u, "," + (v + rest), d) && Passes(v, rest, d)
    ensures Passes(u + "," + v, rest, d)
  {
    CloseOne(',', v + rest, d);
    assert (u + "," + v) + rest == u + ("," + (v + rest));
  }

  lemma {:induction false} CloseList(ts: seq<Ty>, rest: string, d: nat)
    requires forall i :: 0 <= i < |ts| ==> WellFormed(ts[i])
    requires d > 0
    ensures Passes(Join(ts), rest, d)
    decreases ts, 1
  {
    if ts == [] {
      assert Join(ts) + rest == rest;
    } else if |ts| == 1 {
      CloseType(ts[0], rest, d);
    } else {
      var u, v := Render(ts[0]), Join(ts[1..]);
      CloseType(ts[0], "," + (v + rest), d);
      CloseList(ts[1..], rest, d);
      CloseComma(u, v, rest, d);
    }
  }

  lemma {:induction false} CloseTuple(ts: seq<Ty>, suffix: string)
    requires forall i :: 0 <= i < |ts| ==> WellFormed(ts[i])
    ensures Close(Render(Tuple(ts)) + suffix, 0) == Some(|Join(ts)| + 1)
  {
    var rest := ")" + suffix;
    assert Render(Tuple(ts)) + suffix == "(" + (Join(ts) + rest);
    CloseOne('(', Join(ts) + rest, 0);
    CloseList(ts, rest, 1);
    assert rest[0] == ')';
  }

  // ----- recovering the outermost constructor -----

  lemma {:induction false} LastIndexIs(u: string, w: string, c: char)
    requires forall i :: 0 <= i < |w| ==> w[i] != c
    ensures LastIndex(u + [c] + w, c) == Some(|u|)
    decreases |w|
  {
    var s := u + [c] + w;
    if w != [] {
      assert s[|s| - 1] == w[|w| - 1];
      assert s[..|s| - 1] == u + [c] + w[..|w| - 1];
      LastIndexIs(u, w[..|w| - 1], c);
    }
  }

  lemma {:induction false} NoLastIndex(s: string, c: char)
    requires forall i :: 0 <= i < |s| ==> s[i] != c
    ensures LastIndex(s, c) == None
  {
    if s != [] {
      NoLastIndex(s[..|s| - 1], c);
    }
  }

  lemma {:induction false} NoFixedSuffix(t: Ty)
    requires Elementary(t)
    ensures ParseFixedArray(Render(t)) == None
    ensures !HasSuffix(Render(t), "[]")
  {
    var s := Render(t);
    NoLastIndex(s, '[');
    assert !HasPrefix(s, "(") by { assert |s| > 0 ==> s[..1][0] == s[0]; }
    assert !HasSuffix(s, "[]") by { assert |s| >= 2 ==> s[|s| - 2..][0] == s[|s| - 2]; }
  }

  /** "T[N]" on a type that does not start with a parenthesis. */
  lemma {:induction false} MatchSuffixBack(u: string, digits: string)
    requires u != [] && AllDigits(digits)
    requires forall i :: 0 <= i < |u| ==> TypeChar(u[i])
    ensures MatchSuffix(u + "[" + digits + "]") == Some((u, digits))
  {
    var s := u + "[" + digits + "]";
    SuffixCut(u, digits, s);
    assert '\n' !in s[..|u|];
  }

  lemma {:induction false} SuffixCut(u: string, digits: string, s: string)
    requires s == u + "[" + digits + "]" && AllDigits(digits)
    ensures LastIndex(s, '[') == Some(|u|) && HasSuffix(s, "]")
    ensures s[..|u|] == u && s[|u| + 1..|s| - 1] == digits
  {
    ConcatAssoc(u + "[", digits, "]");
    LastIndexIs(u, digits + "]", '[');
    assert s[|s| - 1..] == "]";
  }

  lemma {:induction false} FixedOfPlain(e: Ty, n: nat)
    requires WellFormed(FixedArray(e, n)) && !TupleBased(e)
    ensures ParseFixedArray(Render(FixedArray(e, n))) == Some((Render(e), n))
  {
    StartsWithParen(FixedArray(e, n));
    RenderChars(e);
    NumberOfDecimal(n);
    AtoiOfDecimal(n);
    var u, d := Render(e), Decimal(n);
    MatchSuffixBack(u, d);
    ConcatAssoc(u, "[" + d, "]");
    ConcatAssoc(u, "[", d);
  }

  lemma {:induction false} FixedOfTuple(ts: seq<Ty>, n: nat)
    requires WellFormed(FixedArray(Tuple(ts), n))
    ensures ParseFixedArray(Render(FixedArray(Tuple(ts), n))) == Some((Render(Tuple(ts)), n))
  {
    var u, suffix := Render(Tuple(ts)), Size(n);
    var s := u + suffix;
    StartsWithParen(FixedArray(Tuple(ts), n));
    CloseTuple(ts, suffix);
    AtoiOfDecimal(n);
    assert s[|u|..] == suffix && s[..|u|] == u;
    assert suffix[1..|suffix| - 1] == Decimal(n);
  }

  lemma {:induction false} NotFixedTuple(ts: seq<Ty>)
    requires forall i :: 0 <= i < |ts| ==> WellFormed(ts[i])
    ensures ParseFixedArray(Render(Tuple(ts))) == None
  {
    CloseTuple(ts, []);
    var s := Render(Tuple(ts));
    assert s + [] == s;
    assert s[|s|..] == [];
  }

  /** Array suffixes of a type, outermost last: Render(t) == Render(Core(t)) + Suffix(t). */
  function Core(t: Ty): Ty {
    match t
    case Array(e) => Core(e)
    case FixedArray(e, _) => Core(e)
    case _ => t
  }

  function Suffix(t: Ty): (s: string)
    ensures t.Array? || t.FixedArray? ==> s != [] && s[0] == '[' && s[|s| - 1] == ']'
    ensures !t.Array? && !t.FixedArray? ==> s == []
  {
    match t
    case Array(e) => Suffix(e) + "[]"
    case FixedArray(e, n) => Suffix(e) + Size(n)
    case _ => []
  }

  lemma {:induction false} CoreAndSuffix(t: Ty)
    requires WellFormed(t)
    ensures WellFormed(Core(t)) && Render(t) == Render(Core(t)) + Suffix(t)
    ensures TupleBased(t) <==> Core(t).Tuple?
  {
    match t
    case Array(e) =>
      CoreAndSuffix(e);
      ConcatAssoc(Render(Core(e)), Suffix(e), "[]");
    case FixedArray(e, n) =>
      CoreAndSuffix(e);
      ConcatAssoc(Render(Core(e)), Suffix(e), Size(n));
    case _ =>
      assert Render(t) + [] == Render(t);
  }

  /** A bracket inside the digits makes Atoi fail. */
  lemma {:induction false} AtoiBracket(s: string, i: nat)
    requires i < |s| && s[i] == ']'
    ensures Atoi(s) == None
  {
    if s[0] == '+' || s[0] == '-' {
      assert s[1..][i - 1] == ']';
    }
  }

  lemma {:induction false} TwoSuffixes(ts: seq<Ty>, suffix: string, k: nat)
    requires forall i :: 0 <= i < |ts| ==> WellFormed(ts[i])
    requires 1 <= k < |suffix| - 1 && suffix[k] == ']'
    ensures ParseFixedArray(Render(Tuple(ts)) + suffix) == None
  {
    var u := Render(Tuple(ts));
    var s := u + suffix;
    CloseTuple(ts, suffix);
    assert s[0] == u[0] == '(';
    assert s[|u|..] == suffix;
    assert suffix[1..|suffix| - 1][k - 1] == ']';
    AtoiBracket(suffix[1..|suffix| - 1], k - 1);
  }

  /** A fixed-size suffix on a tuple that already has an array suffix is not recognised. */
  lemma {:induction false} FixedOfTupleArray(e: Ty, n: nat)
    requires WellFormed(FixedArray(e, n)) && TupleBased(e) && !e.Tuple?
    ensures ParseFixedArray(Render(FixedArray(e, n))) == None
  {
    CoreAndSuffix(e);
    var u, v := Render(Core(e)), Suffix(e);
    ConcatAssoc(u, v, Size(n));
    TwoSuffixes(Core(e).elems, v + Size(n), |v| - 1);
  }

  /** parseFixedArray recovers element type and size of "T[N]" exactly when T is not an
      array suffix on a tuple. */
  lemma {:induction false} FixedArrayRecognised(e: Ty, n: nat)
    requires WellFormed(FixedArray(e, n))
    ensures ParseFixedArray(Render(FixedArray(e, n))) == Some((Render(e), n)) <==> (TupleBased(e) ==> e.Tuple?)
  {
    if !TupleBased(e) {
      FixedOfPlain(e, n);
    } else if e.Tuple? {
      FixedOfTuple(e.elems, n);
    } else {
      FixedOfTupleArray(e, n);
    }
  }

  // ----- isDynamic agrees with the grammar -----

  lemma {:induction false} ArraySuffix(u: string)
    ensures HasSuffix(u + "[]", "[]")
  {
  }

  lemma {:induction false} FixedIsNotArraySuffix(e: Ty, n: nat)
    requires WellFormed(FixedArray(e, n))
    ensures !HasSuffix(Render(FixedArray(e, n)), "[]")
    ensures Render(FixedArray(e, n)) != "bytes" && Render(FixedArray(e, n)) != "string"
  {
    var s, d := Render(FixedArray(e, n)), Decimal(n);
    assert Size(n)[|d|] == d[|d| - 1];
    assert s[|s| - 2] == d[|d| - 1] && s[|s| - 1] == ']';
    assert s[|s| - 2..][0] == d[|d| - 1];
  }

  lemma {:induction false} TupleIsNotArraySuffix(ts: seq<Ty>)
    ensures !HasSuffix(Render(Tuple(ts)), "[]")
    ensures Render(Tuple(ts)) != "bytes" && Render(Tuple(ts)) != "string"
    ensures HasPrefix(Render(Tuple(ts)), "(") && |Render(Tuple(ts))| >= 2
    ensures Render(Tuple(ts))[1..|Render(Tuple(ts))| - 1] == Join(ts)
  {
    var s := Render(Tuple(ts));
    assert s[0] == '(' && s[|s| - 1] == ')';
    assert s[|s| - 2..][1] == ')';
  }

  lemma {:induction false} StaticNames(t: Ty)
    requires Elementary(t) && WellFormed(t)
    ensures Render(t) == "bytes" || Render(t) == "string" <==> Dynamic(t)
  {
    match t
    case FixedBytes(n) =>
      assert Render(t)[0] == 'b';
    case Address => assert Render(t)[0] == 'a';
    case Bool => assert |Render(t)| == 4;
    case Uint(b) => assert Render(t)[0] == 'u';
    case Int(b) => assert Render(t)[0] == 'i';
    case _ =>
  }

  /** On every supported printed type the string test is the structural one. */
  lemma {:induction false} IsDynamicAgrees(t: Ty)
    requires WellFormed(t) && Supported(t)
    ensures IsDynamic(Render(t)) == Some(Dynamic(t))
    decreases t, 0
  {
    match t
    case Array(e) =>
      ArraySuffix(Render(e));
    case FixedArray(e, n) =>
      FixedIsNotArraySuffix(e, n);
      FixedArrayRecognised(e, n);
      IsDynamicAgrees(e);
    case Tuple(ts) =>
      TupleIsNotArraySuffix(ts);
      NotFixedTuple(ts);
      SplitJoin(ts);
      AnyDynamicAgrees(ts, |Render(t)| - 2);
    case _ =>
      NoFixedSuffix(t);
      StaticNames(t);
      StartsWithParen(t);
  }

  lemma {:induction false} AnyDynamicAgrees(ts: seq<Ty>, bound: nat)
    requires forall i :: 0 <= i < |ts| ==> WellFormed(ts[i]) && Supported(ts[i])
    requires forall i :: 0 <= i < |ts| ==> |RenderAll(ts)[i]| <= bound
    ensures AnyDynamic(RenderAll(ts), bound) == Some(exists i :: 0 <= i < |ts| && Dynamic(ts[i]))
    decreases ts, 1
  {
    if ts != [] {
      IsDynamicAgrees(ts[0]);
      assert RenderAll(ts)[1..] == RenderAll(ts[1..]);
      if !Dynamic(ts[0]) {
        AnyDynamicAgrees(ts[1..], bound);
        assert forall i :: 0 <= i < |ts[1..]| ==> ts[1..][i] == ts[i + 1];
      }
    }
  }
}
