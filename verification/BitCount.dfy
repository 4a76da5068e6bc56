/** weight32: the number of set bits of a 32-bit word. */
module BitCount {

  predicate Odd(n: bv32) {
    n & 1 == 1
  }

  function Half(n: bv32): bv32 {
    n >> 1
  }

  /** The binary digits of a word, lowest first, without leading zeros. */
  function Digits(n: bv32): (digits: seq<bool>)
    ensures n != 0 ==> digits != [] && digits[|digits| - 1]
  {
    if n == 0 then []
    else
      TopDigit(n);
      [Odd(n)] + Digits(Half(n))
  }

  lemma TopDigit(n: bv32)
    requires n != 0
    ensures Half(n) < n && (Half(n) == 0 ==> Odd(n))
  {
  }

  function Word(digits: seq<bool>): bv32 {
    if digits == [] then 0 else Append(Word(digits[1..]), digits[0])
  }

  function Append(high: bv32, low: bool): bv32 {
    (high << 1) | (if low then 1 else 0)
  }

  function Ones(digits: seq<bool>): nat {
    if digits == [] then 0 else (if digits[0] then 1 else 0) + Ones(digits[1..])
  }

  lemma Recombine(n: bv32)
    ensures Append(Half(n), Odd(n)) == n
  {
  }

  /** Digits is the binary representation: it recombines to the word. */
  lemma {:induction false} DigitsOfWord(n: bv32)
    ensures Word(Digits(n)) == n
  {
    hide Odd, Half, Append;
    if n != 0 {
      TopDigit(n);
      DigitsOfWord(Half(n));
      Recombine(n);
      assert Digits(n)[1..] == Digits(Half(n));
    }
  }

  function WithoutByte(n: bv32): bv32 {
    n >> 8
  }

  lemma ByteShorter(n: bv32)
    ensures |Digits(n)| <= 8 + |Digits(WithoutByte(n))|
  {
    var a := Half(Half(n));
    var b := Half(Half(a));
    var c := Half(Half(b));
    Halves(n);
    TwoShorter(n);
    TwoShorter(a);
    TwoShorter(b);
    TwoShorter(c);
  }

  lemma Halves(n: bv32)
    ensures Half(Half(Half(Half(Half(Half(Half(Half(n)))))))) == WithoutByte(n)
  {
  }

  lemma TwoShorter(n: bv32)
    ensures |Digits(n)| <= 2 + |Digits(Half(Half(n)))|
  {
    hide Odd;
    assert Half(0) == 0;
  }

  /** It never has more than 32 digits. */
  lemma AtMost32Digits(n: bv32)
    ensures |Digits(n)| <= 32
  {
    hide Digits, WithoutByte;
    var a := WithoutByte(n);
    var b := WithoutByte(a);
    ByteShorter(n);
    ByteShorter(a);
    ByteShorter(b);
    ByteShorter(WithoutByte(b));
    FourBytes(n);
    NoDigits();
  }

  lemma FourBytes(n: bv32)
    ensures WithoutByte(WithoutByte(WithoutByte(WithoutByte(n)))) == 0
  {
  }

  lemma NoDigits()
    ensures Digits(0) == []
  {
  }

  function SetBits(n: bv32): nat {
    Ones(Digits(n))
  }

  lemma FirstDigit(n: bv32)
    ensures SetBits(n) == (if Odd(n) then 1 else 0) + SetBits(Half(n))
  {
    if n != 0 {
      assert Digits(n)[1..] == Digits(Half(n));
    } else {
      assert Half(n) == 0 && !Odd(n);
    }
  }

  function ClearLowest(n: bv32): bv32 {
    n & (n - 1)
  }

  lemma ClearStep(n: bv32)
    requires n != 0
    ensures !Odd(ClearLowest(n))
    ensures Odd(n) ==> Half(ClearLowest(n)) == Half(n)
    ensures !Odd(n) ==> Half(n) != 0 && Half(ClearLowest(n)) == ClearLowest(Half(n))
  {
  }

  /** n & (n - 1) has exactly one set bit less than n. */
  lemma {:induction false} ClearsOneBit(n: bv32)
    requires n != 0
    ensures SetBits(n) == SetBits(ClearLowest(n)) + 1
    decreases n
  {
    hide SetBits, Odd, Half, ClearLowest;
    FirstDigit(n);
    FirstDigit(ClearLowest(n));
    TopDigit(n);
    ClearStep(n);
    if !Odd(n) {
      ClearsOneBit(Half(n));
    }
  }

  method Weight32(word: bv32) returns (count: nat)
    ensures count == SetBits(word) <= 32
  {
    hide SetBits;
    var n := word;
    count := 0;
    while n != 0
      invariant count + SetBits(n) == SetBits(word)
      decreases SetBits(n)
    {
      ClearsOneBit(n);
      n := ClearLowest(n);
      count := count + 1;
    }
    ZeroBits();
    AtMost32Digits(word);
    OnesBounded(word);
  }

  lemma ZeroBits()
    ensures SetBits(0) == 0
  {
  }

  lemma OnesBounded(n: bv32)
    ensures SetBits(n) <= |Digits(n)|
  {
    OnesAtMost(Digits(n));
  }

  lemma {:induction false} OnesAtMost(digits: seq<bool>)
    ensures Ones(digits) <= |digits|
  {
    if digits != [] {
      OnesAtMost(digits[1..]);
    }
  }
}
