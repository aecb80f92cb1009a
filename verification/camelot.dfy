/** The lookup from a detected (mode, pitch class) to a Camelot key, used by
    the pipeline before the search runs. */
module Camelot {
  import opened Wrappers
  import opened Keys

  /** A detected key: major or minor, on a pitch class (0 = C, 1 = C#, ...). */
  datatype StratumKey = Major(pitchClass: nat) | Minor(pitchClass: nat)

  /** Camelot number of each major pitch class (all major keys are B). */
  const MajorNumbers: seq<int> := [8, 3, 10, 5, 12, 7, 2, 9, 4, 11, 6, 1]

  /** Camelot number of each minor pitch class (all minor keys are A). */
  const MinorNumbers: seq<int> := [5, 12, 7, 2, 9, 4, 11, 6, 1, 8, 3, 10]

  /** The message `CreateKeyError`'s `Display` produces. */
  function ErrorMessage(e: CreateKeyError): (s: string)
  {
    match e
    case InvalidLetterError => "invalid letter given"
    case InvalidNumberError => "invalid number given"
  }

  /** Every table entry is a valid key number. */
  lemma TablesInRange(i: nat)
    requires i < 12
    ensures 1 <= MajorNumbers[i] <= 12 && 1 <= MinorNumbers[i] <= 12
  {
  }

  /** `stratum_key_to_camelot`: reduce the pitch class mod 12, look it up in
      the table of the mode, and build the key. The build never fails. */
  function StratumKeyToCamelot(v: StratumKey): (r: Result<Key, string>)
    ensures r.Success?
    ensures v.Major? ==> r.value.letter == B
    ensures v.Minor? ==> r.value.letter == A
    ensures r.value.number == (if v.Major? then MajorNumbers else MinorNumbers)[v.pitchClass % 12]
  {
    var (number, letter) :=
      match v
      case Major(pitchClass) =>
        var idx := pitchClass % 12;
        (MajorNumbers[idx], B)
      case Minor(pitchClass) =>
        var idx := pitchClass % 12;
        (MinorNumbers[idx], A);
    TablesInRange(v.pitchClass % 12);
    NewKey(number, LetterChar(letter)).MapFailure(ErrorMessage)
  }

  /** Pitch classes `p` and `p + 12` name the same key. */
  lemma PitchClassPeriodic(p: nat)
    ensures StratumKeyToCamelot(Major(p)) == StratumKeyToCamelot(Major(p + 12))
    ensures StratumKeyToCamelot(Minor(p)) == StratumKeyToCamelot(Minor(p + 12))
  {
    assert (p + 12) % 12 == p % 12;
  }

  /** Each table is a permutation of 1..12: distinct pitch classes of one
      mode get distinct numbers, and every number is reached. */
  lemma TablesArePermutations()
    ensures forall i, j :: 0 <= i < j < 12 ==> MajorNumbers[i] != MajorNumbers[j]
    ensures forall i, j :: 0 <= i < j < 12 ==> MinorNumbers[i] != MinorNumbers[j]
    ensures forall n :: 1 <= n <= 12 ==> n in MajorNumbers && n in MinorNumbers
  {
  }

  /** Two pitch classes of the same mode map to the same key only when they
      are equal modulo 12. */
  lemma DistinctPitchClassesDistinctKeys(p: nat, q: nat)
    requires p % 12 != q % 12
    ensures StratumKeyToCamelot(Major(p)) != StratumKeyToCamelot(Major(q))
    ensures StratumKeyToCamelot(Minor(p)) != StratumKeyToCamelot(Minor(q))
  {
    TablesArePermutations();
    var i, j := p % 12, q % 12;
    if i < j {
      assert MajorNumbers[i] != MajorNumbers[j];
      assert MinorNumbers[i] != MinorNumbers[j];
    } else {
      assert MajorNumbers[j] != MajorNumbers[i];
      assert MinorNumbers[j] != MinorNumbers[i];
    }
  }

  /** A major key and its relative minor (nine semitones up) share a number. */
  lemma RelativeMinorSharesNumber(p: nat)
    ensures StratumKeyToCamelot(Major(p)).value.number == StratumKeyToCamelot(Minor(p + 9)).value.number
  {
    var i := p % 12;
    assert (p + 9) % 12 == (i + 9) % 12;
    assert forall j :: 0 <= j < 12 ==> MajorNumbers[j] == MinorNumbers[(j + 9) % 12];
  }
}
