/** Harmonic transitions between Camelot keys: the eleven movement kinds,
    their weight table, and the classifier that names the movement from one
    key to another. */
module Movements {
  import opened Wrappers
  import opened Keys

  datatype Movement =
    | PerfectMatch
    | EnergyBoost
    | EnergyDrop
    | EnergySwitch
    | MoodBoost
    | MoodDrop
    | EnergyRaise
    | DomKey
    | SubDomKey
    | ToneBoost
    | ToneDrop

  /** Score of each movement kind (`i32` fields in the source). */
  datatype MovementWeights = MovementWeights(
    perfectMatch: int,
    energyBoost: int,
    energyDrop: int,
    energySwitch: int,
    moodBoost: int,
    moodDrop: int,
    energyRaise: int,
    domKey: int,
    subDomKey: int,
    toneBoost: int,
    toneDrop: int)

  /** Position of a movement in the declaration order of the enum. */
  function Ordinal(m: Movement): (i: nat)
    ensures i < 11
  {
    match m
    case PerfectMatch => 0
    case EnergyBoost => 1
    case EnergyDrop => 2
    case EnergySwitch => 3
    case MoodBoost => 4
    case MoodDrop => 5
    case EnergyRaise => 6
    case DomKey => 7
    case SubDomKey => 8
    case ToneBoost => 9
    case ToneDrop => 10
  }

  /** The fields of a weight table, in enum order. */
  function Fields(w: MovementWeights): (s: seq<int>)
    ensures |s| == 11
  {
    [w.perfectMatch, w.energyBoost, w.energyDrop, w.energySwitch, w.moodBoost,
     w.moodDrop, w.energyRaise, w.domKey, w.subDomKey, w.toneBoost, w.toneDrop]
  }

  /** `MovementWeights::default`. */
  function DefaultWeights(): (w: MovementWeights)
    ensures Fields(w) == [35, 10, 10, 10, 5, 5, 5, 10, 10, 0, 0]
  {
    MovementWeights(
      perfectMatch := 35,
      energyBoost := 10,
      energyDrop := 10,
      energySwitch := 10,
      moodBoost := 5,
      moodDrop := 5,
      energyRaise := 5,
      domKey := 10,
      subDomKey := 10,
      toneBoost := 0,
      toneDrop := 0)
  }

  /** `MovementWeights::weight`: the field belonging to the movement. */
  function Weight(w: MovementWeights, m: Movement): (r: int)
    ensures r == Fields(w)[Ordinal(m)]
  {
    match m
    case PerfectMatch => w.perfectMatch
    case EnergyBoost => w.energyBoost
    case EnergyDrop => w.energyDrop
    case EnergySwitch => w.energySwitch
    case MoodBoost => w.moodBoost
    case MoodDrop => w.moodDrop
    case EnergyRaise => w.energyRaise
    case DomKey => w.domKey
    case SubDomKey => w.subDomKey
    case ToneBoost => w.toneBoost
    case ToneDrop => w.toneDrop
  }

  // ----- the classifier -----

  /** The key number reached by moving `d` steps clockwise round the wheel. */
  function Step(start: KeyNumber, d: nat): (n: KeyNumber)
  {
    (start - 1 + d) % 12 + 1
  }

  /** `forward_delta`: how many clockwise steps lead from `start` to `end`. */
  function ForwardDelta(start: KeyNumber, end: KeyNumber): (d: nat)
    ensures d < 12
    ensures d == (end - start) % 12
  {
    var s := start - 1;
    var e := end - 1;
    var d := (e - s + 12) % 12;
    assert d == if e >= s then e - s else e - s + 12;
    d
  }

  /** Turning the wheel by the forward delta lands on the end key. */
  lemma ForwardDeltaSteps(start: KeyNumber, end: KeyNumber)
    ensures Step(start, ForwardDelta(start, end)) == end
  {
    var s := start - 1;
    var e := end - 1;
    assert ForwardDelta(start, end) == if e >= s then e - s else e - s + 12;
  }

  /** The clockwise distance to a key is unique below a full turn. */
  lemma StepInjective(start: KeyNumber, d1: nat, d2: nat)
    requires d1 < 12 && d2 < 12
    requires Step(start, d1) == Step(start, d2)
    ensures d1 == d2
  {
  }

  /** `movement_between`: the movement from `start` to `end`, if the pair of
      keys is one of the eleven recognised transitions. */
  function MovementBetween(start: Key, end: Key): (r: Option<Movement>)
    ensures r.Some? <==>
      (if start.letter == end.letter
       then ForwardDelta(start.number, end.number) in {0, 1, 11, 2, 10, 7}
       else ForwardDelta(start.number, end.number) in {0, 1, 11, 3, 9})
  {
    var delta := ForwardDelta(start.number, end.number);
    var sameLetter := start.letter == end.letter;
    if sameLetter then
      match delta
      case 0 => Some(PerfectMatch)
      case 1 => Some(EnergyBoost)
      case 11 => Some(EnergyDrop)
      case 2 => Some(ToneBoost)
      case 10 => Some(ToneDrop)
      case 7 => Some(EnergyRaise)
      case _ => None
    else
      match delta
      case 0 => Some(EnergySwitch)
      case 1 => Some(DomKey)
      case 11 => Some(SubDomKey)
      case 3 => Some(MoodBoost)
      case 9 => Some(MoodDrop)
      case _ => None
  }

  // ----- an independent description of the same wheel rules -----

  /** How many steps clockwise each movement turns the wheel. */
  function Delta(m: Movement): (d: nat)
    ensures d < 12
  {
    match m
    case PerfectMatch => 0
    case EnergyBoost => 1
    case EnergyDrop => 11
    case EnergySwitch => 0
    case MoodBoost => 3
    case MoodDrop => 9
    case EnergyRaise => 7
    case DomKey => 1
    case SubDomKey => 11
    case ToneBoost => 2
    case ToneDrop => 10
  }

  /** Whether a movement stays on the same ring (keeps the letter). */
  predicate KeepsLetter(m: Movement)
  {
    m in {PerfectMatch, EnergyBoost, EnergyDrop, EnergyRaise, ToneBoost, ToneDrop}
  }

  function OtherLetter(l: Letter): (r: Letter)
  {
    if l == A then B else A
  }

  /** The key a movement leads to from `start`. */
  function Apply(start: Key, m: Movement): (k: Key)
  {
    Key(Step(start.number, Delta(m)), if KeepsLetter(m) then start.letter else OtherLetter(start.letter))
  }

  /** The classifier names movement `m` exactly when `m` leads from `start`
      to `end`. */
  lemma MovementBetweenIsApply(start: Key, end: Key, m: Movement)
    ensures MovementBetween(start, end) == Some(m) <==> Apply(start, m) == end
  {
    var d := ForwardDelta(start.number, end.number);
    ForwardDeltaSteps(start.number, end.number);
    if Apply(start, m) == end {
      StepInjective(start.number, Delta(m), d);
    }
  }

  /** The classifier gives no movement exactly when no movement leads from
      `start` to `end`. */
  lemma MovementBetweenNone(start: Key, end: Key)
    ensures MovementBetween(start, end).None? <==> forall m :: Apply(start, m) != end
  {
    if MovementBetween(start, end).Some? {
      MovementBetweenIsApply(start, end, MovementBetween(start, end).value);
    } else {
      forall m
        ensures Apply(start, m) != end
      {
        MovementBetweenIsApply(start, end, m);
      }
    }
  }

  /** The three transitions exercised by the source's unit test. */
  lemma CamelotRuleExamples()
    ensures MovementBetween(Key(7, A), Key(8, A)) == Some(EnergyBoost)
    ensures MovementBetween(Key(7, A), Key(7, B)) == Some(EnergySwitch)
    ensures MovementBetween(Key(7, A), Key(4, B)) == Some(MoodDrop)
  {
    assert ForwardDelta(7, 8) == 1;
    assert ForwardDelta(7, 7) == 0;
    assert ForwardDelta(7, 4) == 9;
  }

  /** The six movements among the keys 7A, 8A and 7B. */
  lemma ThreeKeySteps()
    ensures MovementBetween(Key(7, A), Key(8, A)) == Some(EnergyBoost)
    ensures MovementBetween(Key(8, A), Key(7, A)) == Some(EnergyDrop)
    ensures MovementBetween(Key(7, A), Key(7, B)) == Some(EnergySwitch)
    ensures MovementBetween(Key(7, B), Key(7, A)) == Some(EnergySwitch)
    ensures MovementBetween(Key(8, A), Key(7, B)) == Some(SubDomKey)
    ensures MovementBetween(Key(7, B), Key(8, A)) == Some(DomKey)
  {
    assert ForwardDelta(7, 8) == 1;
    assert ForwardDelta(8, 7) == 11;
    assert ForwardDelta(7, 7) == 0;
  }
}
