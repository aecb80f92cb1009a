/** The Camelot key value of a track: a number on the wheel (1..12) and a
    letter, A for minor and B for major, together with its validated
    constructor and its string form. */
module Keys {
  import opened Wrappers

  /** The source stores the number as an `i8`. */
  type I8 = x: int | -128 <= x < 128

  type KeyNumber = n: int | 1 <= n <= 12 witness 1

  datatype Letter = A | B

  /** The two ways `Key::new` can fail (`CreateKeyError`). */
  datatype CreateKeyError = InvalidLetterError | InvalidNumberError

  datatype Key = Key(number: KeyNumber, letter: Letter)

  /** The character a letter is written as. */
  function LetterChar(l: Letter): (c: char)
    ensures c == 'A' || c == 'B'
    ensures c == 'A' <==> l == A
  {
    match l
    case A => 'A'
    case B => 'B'
  }

  /** The letter a character names, if it names one. */
  function LetterOf(c: char): (r: Option<Letter>)
    ensures r.Some? <==> (c == 'A' || c == 'B')
    ensures r.Some? ==> LetterChar(r.value) == c
  {
    if c == 'A' then Some(A)
    else if c == 'B' then Some(B)
    else None
  }

  /** `Key::new`: the number is checked before the letter. */
  function NewKey(num: I8, letter: char): (r: Result<Key, CreateKeyError>)
    ensures r == Failure(InvalidNumberError) <==> (num > 12 || num <= 0)
    ensures r == Failure(InvalidLetterError) <==> (1 <= num <= 12 && letter != 'A' && letter != 'B')
    ensures r.Success? <==> (1 <= num <= 12 && (letter == 'A' || letter == 'B'))
    ensures r.Success? ==> r.value.number == num && LetterChar(r.value.letter) == letter
  {
    if num > 12 || num <= 0 then
      Failure(InvalidNumberError)
    else
      match LetterOf(letter)
      case None => Failure(InvalidLetterError)
      case Some(l) => Success(Key(num, l))
  }

  /** `Key::new_force`: `new` followed by `unwrap`, so callers must pass a
      valid number and letter. */
  function NewForce(num: I8, letter: char): (k: Key)
    requires 1 <= num <= 12 && (letter == 'A' || letter == 'B')
    ensures NewKey(num, letter) == Success(k)
    ensures k.number == num && LetterChar(k.letter) == letter
  {
    NewKey(num, letter).value
  }

  // ----- decimal notation -----

  function DigitChar(d: nat): (c: char)
    requires d < 10
    ensures '0' <= c <= '9'
  {
    "0123456789"[d]
  }

  function DigitValue(c: char): (d: nat)
  {
    if '0' <= c <= '9' then (c - '0') as nat else 0
  }

  /** Decimal notation of a natural number, most significant digit first,
      without leading zeros (Rust's `{}` formatting of an integer). */
  function DecimalString(n: nat): (s: string)
    ensures 1 <= |s|
    ensures forall i :: 0 <= i < |s| ==> '0' <= s[i] <= '9'
    ensures n < 10 <==> |s| == 1
    ensures n >= 10 ==> s[0] != '0'
  {
    if n < 10 then [DigitChar(n)] else DecimalString(n / 10) + [DigitChar(n % 10)]
  }

  /** Reads a string of decimal digits back as a number. */
  function DecimalValue(s: string): (n: nat)
  {
    if s == [] then 0 else DecimalValue(s[..|s| - 1]) * 10 + DigitValue(s[|s| - 1])
  }

  lemma DigitRoundTrip(d: nat)
    requires d < 10
    ensures DigitValue(DigitChar(d)) == d
  {
  }

  /** Reading the decimal notation of `n` gives `n` back. */
  lemma {:induction false} DecimalRoundTrip(n: nat)
    ensures DecimalValue(DecimalString(n)) == n
  {
    var s := DecimalString(n);
    if n < 10 {
      DigitRoundTrip(n);
      assert s[..0] == [];
    } else {
      DecimalRoundTrip(n / 10);
      DigitRoundTrip(n % 10);
      assert s[..|s| - 1] == DecimalString(n / 10);
    }
  }

  /** Distinct numbers have distinct decimal notations. */
  lemma DecimalInjective(m: nat, n: nat)
    requires DecimalString(m) == DecimalString(n)
    ensures m == n
  {
    DecimalRoundTrip(m);
    DecimalRoundTrip(n);
  }

  // ----- string form -----

  /** `From<Key> for String`: the decimal number followed by the letter. */
  function KeyString(k: Key): (s: string)
    ensures |s| == (if k.number < 10 then 2 else 3)
    ensures s[|s| - 1] == LetterChar(k.letter)
    ensures s[..|s| - 1] == DecimalString(k.number as nat)
  {
    DecimalString(k.number as nat) + [LetterChar(k.letter)]
  }

  /** `Display for Key` writes exactly the string form. */
  function Display(k: Key): (s: string)
    ensures s == KeyString(k)
  {
    KeyString(k)
  }

  /** Distinct keys have distinct string forms. */
  lemma KeyStringInjective(k1: Key, k2: Key)
    requires KeyString(k1) == KeyString(k2)
    ensures k1 == k2
  {
    var s1, s2 := KeyString(k1), KeyString(k2);
    assert s1[..|s1| - 1] == s2[..|s2| - 1];
    DecimalInjective(k1.number as nat, k2.number as nat);
    assert LetterChar(k1.letter) == LetterChar(k2.letter);
  }

  lemma KeyStringExamples()
    ensures KeyString(Key(7, A)) == "7A"
    ensures KeyString(Key(12, B)) == "12B"
  {
  }
}
