/** Base-58 addresses (chain/address.go).

    `Encode` and `Decode` are the two loops of the source.  `Encoded` and `Decoded` say what they
    compute: leading zero bytes map to leading '1's and the rest is an ordinary change of base.
    The main results are that the two directions undo each other on all inputs. */
module Base58 {
  import opened Options
  import opened Sequences
  import opened Numerals

  // ----- the alphabet and its reverse table -----

  /** The runs of the alphabet "1..9 A..H J..N P..Z a..k m..z" (no 0, I, O, l), in digit order. */
  function Letter(d: nat): (c: char)
    requires d < 58
    ensures DigitOf(c) == d
    ensures c == '1' <==> d == 0
  {
    if d < 9 then ('1' as int + d) as char
    else if d < 17 then ('A' as int + d - 9) as char
    else if d < 22 then ('J' as int + d - 17) as char
    else if d < 33 then ('P' as int + d - 22) as char
    else if d < 44 then ('a' as int + d - 33) as char
    else ('m' as int + d - 44) as char
  }

  /** The reverse table: the digit of a character, or -1 outside the alphabet. */
  function DigitOf(c: char): (d: int)
    ensures -1 <= d < 58
  {
    if '1' <= c <= '9' then c as int - '1' as int
    else if 'A' <= c <= 'H' then c as int - 'A' as int + 9
    else if 'J' <= c <= 'N' then c as int - 'J' as int + 17
    else if 'P' <= c <= 'Z' then c as int - 'P' as int + 22
    else if 'a' <= c <= 'k' then c as int - 'a' as int + 33
    else if 'm' <= c <= 'z' then c as int - 'm' as int + 44
    else -1
  }

  /** The alphabet as the source spells it. */
  lemma {:induction false} Alphabet()
    ensures seq(58, i requires 0 <= i < 58 => Letter(i))
         == "123456789" + "ABCDEFGH" + "JKLMN" + "PQRSTUVWXYZ" + "abcdefghijk" + "mnopqrstuvwxyz"
  {
  }

  /** Letters and digits correspond one to one. */
  lemma {:induction false} LetterExactly(c: char, d: nat)
    requires d < 58
    ensures Letter(d) == c <==> DigitOf(c) == d
  {
  }

  // ----- what encoding and decoding compute -----

  function Letters(ds: seq<nat>): (s: string)
    requires Below(ds, 58)
    ensures |s| == |ds|
  {
    seq(|ds|, i requires 0 <= i < |ds| => Letter(ds[i]))
  }

  predicate InAlphabet(s: string) {
    forall i :: 0 <= i < |s| ==> DigitOf(s[i]) >= 0
  }

  function DigitsOf(s: string): (ds: seq<nat>)
    requires InAlphabet(s)
    ensures |ds| == |s| && Below(ds, 58)
  {
    seq(|s|, i requires 0 <= i < |s| => DigitOf(s[i]))
  }

  /** Base-58 digits of the bytes, one leading '1' for each leading zero byte. */
  function Encoded(input: seq<byte>): (s: string) {
    Letters(Rebase(input, 256, 58))
  }

  function Decoded(s: string): (r: Option<seq<byte>>) {
    if InAlphabet(s) then Some(Rebase(DigitsOf(s), 58, 256)) else None
  }

  lemma {:induction false} DigitsOfLetters(ds: seq<nat>)
    requires Below(ds, 58)
    ensures InAlphabet(Letters(ds)) && DigitsOf(Letters(ds)) == ds
  {
  }

  // ----- decode after encode, encode after decode -----

  /** Decoding an encoded byte string gives it back, leading zeros included. */
  lemma {:induction false} DecodeEncode(b: seq<byte>)
    ensures Decoded(Encoded(b)) == Some(b)
  {
    DigitsOfLetters(Rebase(b, 256, 58));
    RebaseBack(b, 256, 58);
  }

  /** Encoding what an alphabet string decodes to gives the string back. */
  lemma {:induction false} EncodeDecode(s: string)
    requires InAlphabet(s)
    ensures Decoded(s).Some? && Encoded(Decoded(s).value) == s
  {
    RebaseBack(DigitsOf(s), 58, 256);
  }

  /** The text spells the same number as the bytes, with a '1' for every leading zero byte and no other
      leading '1', and so does what a text decodes to. */
  lemma {:induction false} SameNumber(b: seq<byte>)
    ensures InAlphabet(Encoded(b))
    ensures Value(DigitsOf(Encoded(b)), 58) == Value(b, 256)
    ensures CountLeading(Encoded(b), '1') == CountLeading(b, 0)
  {
    DigitsOfLetters(Rebase(b, 256, 58));
    RebaseNumber(b, 256, 58);
    LeadingOnes(Encoded(b));
  }

  /** Two different strings never decode to the same bytes. */
  lemma {:induction false} DecodeInjective(s: string, t: string)
    requires Decoded(s).Some? && Decoded(s) == Decoded(t)
    ensures s == t
  {
    EncodeDecode(s);
    EncodeDecode(t);
  }

  // ----- the encoder's loop -----

  /** The number of a little-endian base-58 digit string, the form the encoder keeps. */
  function Little(ds: seq<nat>): nat {
    if ds == [] then 0 else ds[0] + 58 * Little(ds[1..])
  }

  function Flip<T>(s: seq<T>): (t: seq<T>)
    ensures |t| == |s|
    ensures forall i :: 0 <= i < |s| ==> t[i] == s[|s| - 1 - i]
  {
    seq(|s|, i requires 0 <= i < |s| => s[|s| - 1 - i])
  }

  lemma {:induction false} LittleIsValue(ds: seq<nat>)
    ensures Value(Flip(ds), 58) == Little(ds)
  {
    if ds != [] {
      assert Flip(ds)[..|ds| - 1] == Flip(ds[1..]);
      LittleIsValue(ds[1..]);
    }
  }

  /** No digit is out of range and the most significant one is not zero. */
  predicate Canonical(ds: seq<nat>) {
    Below(ds, 58) && (ds != [] ==> ds[|ds| - 1] != 0)
  }

  /** Digits appended by the final carry loop. */
  function Spill(carry: nat): (ds: seq<nat>) {
    if carry == 0 then [] else [carry % 58] + Spill(carry / 58)
  }

  /** One input byte: every digit times 256 plus the incoming carry. */
  function TimesPlus(ds: seq<nat>, carry: nat): (r: seq<nat>) {
    if ds == [] then Spill(carry)
    else
      var c := carry + ds[0] * 256;
      [c % 58] + TimesPlus(ds[1..], c / 58)
  }

  lemma {:induction false} SpillIsCarry(carry: nat)
    ensures Canonical(Spill(carry)) && Little(Spill(carry)) == carry
    ensures carry > 0 ==> Spill(carry) != []
  {
    if carry > 0 {
      SpillIsCarry(carry / 58);
      assert Spill(carry)[1..] == Spill(carry / 58);
    }
  }

  lemma {:induction false} TimesPlusIsArithmetic(ds: seq<nat>, carry: nat)
    requires Canonical(ds)
    ensures Canonical(TimesPlus(ds, carry))
    ensures Little(TimesPlus(ds, carry)) == 256 * Little(ds) + carry
    ensures ds != [] || carry > 0 ==> TimesPlus(ds, carry) != []
  {
    if ds == [] {
      SpillIsCarry(carry);
    } else {
      var c := carry + ds[0] * 256;
      TimesPlusIsArithmetic(ds[1..], c / 58);
      assert TimesPlus(ds, carry)[1..] == TimesPlus(ds[1..], c / 58);
    }
  }

  /** The in-place pass over the digits; `carry` stays below 256 throughout. */
  method Multiply(before: seq<nat>, b: byte) returns (digits: seq<nat>, carry: nat)
    requires Below(before, 58)
    ensures carry < 256
    ensures digits + Spill(carry) == TimesPlus(before, b)
  {
    digits, carry := before, b;
    for i := 0 to |digits|
      invariant |digits| == |before| && digits[i..] == before[i..]
      invariant carry < 256
      invariant digits[..i] + TimesPlus(before[i..], carry) == TimesPlus(before, b)
    {
      ghost var done, suffix, c := digits[..i], before[i..], carry + digits[i] * 256;
      assert digits[i] == suffix[0] && suffix[1..] == before[i + 1..];
      assert TimesPlus(suffix, carry) == [c % 58] + TimesPlus(before[i + 1..], c / 58);
      carry := carry + digits[i] * 256;
      digits := digits[i := carry % 58];
      assert digits[..i + 1] == done + [carry % 58];
      carry := carry / 58;
    }
    assert before[|digits|..] == [] && digits[..|digits|] == digits;
  }

  /** Both inner loops of the encoder: multiply in place, then append the carry's digits. */
  method PushByte(before: seq<nat>, b: byte) returns (digits: seq<nat>)
    requires Below(before, 58)
    ensures digits == TimesPlus(before, b)
  {
    var carry;
    digits, carry := Multiply(before, b);
    while carry > 0
      invariant digits + Spill(carry) == TimesPlus(before, b)
    {
      assert digits + Spill(carry) == (digits + [carry % 58]) + Spill(carry / 58);
      digits := digits + [carry % 58];
      carry := carry / 58;
    }
  }

  /** The digits of the whole input, least significant first. */
  method ConvertDigits(input: seq<byte>) returns (digits: seq<nat>)
    ensures Below(digits, 58)
    ensures Flip(digits) == Digits(Value(input, 256), 58)
  {
    digits := [];
    for k := 0 to |input|
      invariant Canonical(digits)
      invariant Little(digits) == Value(input[..k], 256)
    {
      assert input[..k + 1][..k] == input[..k];
      TimesPlusIsArithmetic(digits, input[k]);
      digits := PushByte(digits, input[k]);
    }
    assert input[..|input|] == input;
    LittleIsValue(digits);
    DigitsOfValue(Flip(digits), 58);
  }

  method CountRun<T(==)>(s: seq<T>, x: T) returns (k: nat)
    ensures k == CountLeading(s, x)
  {
    k := 0;
    while k < |s| && s[k] == x
      invariant k <= |s|
      invariant forall i :: 0 <= i < k ==> s[i] == x
    {
      k := k + 1;
    }
    LeadingRunIs(s, x, k);
  }

  lemma {:induction false} LeadingRunIs<T>(s: seq<T>, x: T, k: nat)
    requires k <= |s|
    requires forall i :: 0 <= i < k ==> s[i] == x
    requires k < |s| ==> s[k] != x
    ensures CountLeading(s, x) == k
  {
    if k > 0 {
      LeadingRunIs(s[1..], x, k - 1);
    }
  }

  /** Writes the leading '1's forwards and the digits backwards into one buffer. */
  method Layout(leadingZeros: nat, digits: seq<nat>) returns (s: string)
    requires Below(digits, 58)
    ensures s == Letters(Repeat(0, leadingZeros) + Flip(digits))
  {
    var n := leadingZeros + |digits|;
    var result := new char[n];
    for i := 0 to leadingZeros
      invariant forall j :: 0 <= j < i ==> result[j] == '1'
    {
      result[i] := Letter(0);
    }
    for i := 0 to |digits|
      invariant forall j :: 0 <= j < leadingZeros ==> result[j] == '1'
      invariant forall j :: n - i <= j < n ==> result[j] == Letter(digits[n - 1 - j])
    {
      result[n - 1 - i] := Letter(digits[i]);
    }
    s := result[..];
  }

  method Encode(input: seq<byte>) returns (s: string)
    ensures s == Encoded(input)
  {
    var leadingZeros := CountRun(input, 0);
    var digits := ConvertDigits(input);
    s := Layout(leadingZeros, digits);
  }

  // ----- the decoder's loop -----

  method Accumulate(s: string) returns (r: Option<nat>)
    ensures r == if InAlphabet(s) then Some(Value(DigitsOf(s), 58)) else None
  {
    var n: nat := 0;
    for k := 0 to |s|
      invariant InAlphabet(s[..k]) && n == Value(DigitsOf(s[..k]), 58)
    {
      var val := DigitOf(s[k]);
      if val < 0 {
        return None;
      }
      assert s[..k + 1][..k] == s[..k];
      assert DigitsOf(s[..k + 1])[..k] == DigitsOf(s[..k]);
      n := n * 58;
      n := n + val;
    }
    assert s[..|s|] == s;
    return Some(n);
  }

  method PadLeft(zeros: nat, decoded: seq<byte>) returns (r: seq<byte>)
    ensures r == Repeat<nat>(0, zeros) + decoded
  {
    var result := new byte[zeros + |decoded|](_ => 0);
    for i := 0 to |decoded|
      invariant forall j :: 0 <= j < zeros ==> result[j] == 0
      invariant forall j :: 0 <= j < i ==> result[zeros + j] == decoded[j]
    {
      result[zeros + i] := decoded[i];
    }
    r := result[..];
  }

  /** Counting leading '1's is counting leading zero digits. */
  lemma {:induction false} LeadingOnes(s: string)
    requires InAlphabet(s)
    ensures CountLeading(DigitsOf(s), 0) == CountLeading(s, '1')
  {
    LeadingRunIs(DigitsOf(s), 0, CountLeading(s, '1'));
  }

  method Decode(s: string) returns (r: Option<seq<byte>>)
    ensures r == Decoded(s)
  {
    var n := Accumulate(s);
    if n.None? {
      return None;
    }
    var leadingOnes := CountRun(s, '1');
    LeadingOnes(s);
    var bytes := PadLeft(leadingOnes, Digits(n.value, 256));
    return Some(bytes);
  }
}
