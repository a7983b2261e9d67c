/** Per-chiller advice: a chiller whose COP is below the efficiency threshold
    is flagged for maintenance or load redistribution, every other chiller is
    reported as operating efficiently. */
module Advisor {
  import opened Plant

  /** COP below this value draws a warning; exactly this value is efficient. */
  const EfficientCop: real := 3.5

  datatype Level = Warning | Info

  /** One advisory line about one chiller. */
  datatype Advice = Advice(level: Level, name: string)

  function Classify(c: Chiller): Advice
  {
    if c.cop < EfficientCop then Advice(Warning, c.name) else Advice(Info, c.name)
  }

  /** One advice per chiller, in fleet order. */
  function Recommend(chillers: seq<Chiller>): (advice: seq<Advice>)
    ensures |advice| == |chillers|
    ensures forall i :: 0 <= i < |chillers| ==>
              advice[i].name == chillers[i].name &&
              (advice[i].level == Warning <==> chillers[i].cop < EfficientCop)
  {
    if chillers == [] then [] else [Classify(chillers[0])] + Recommend(chillers[1..])
  }

  /** The text shown for an advice; it always opens with the chiller's name. */
  function Message(a: Advice): (text: string)
    ensures |a.name| < |text| && text[..|a.name|] == a.name
  {
    match a.level
    case Warning => a.name + " may benefit from maintenance or load redistribution."
    case Info => a.name + " is operating efficiently."
  }

  /** Names of the chillers that were warned about, in order. */
  function WarnedNames(advice: seq<Advice>): seq<string>
  {
    if advice == [] then []
    else (if advice[0].level == Warning then [advice[0].name] else []) + WarnedNames(advice[1..])
  }

  /** Independent reference: names of the chillers whose COP is below the
      threshold, in fleet order. */
  function LowCopNames(chillers: seq<Chiller>): seq<string>
  {
    if chillers == [] then []
    else (if chillers[0].cop < EfficientCop then [chillers[0].name] else []) + LowCopNames(chillers[1..])
  }

  /** Exactly the chillers with COP below the threshold are warned about,
      each once and in fleet order. */
  lemma {:induction false} WarningsAreLowCop(chillers: seq<Chiller>)
    ensures WarnedNames(Recommend(chillers)) == LowCopNames(chillers)
  {
    if chillers != [] {
      var advice := Recommend(chillers);
      assert advice[1..] == Recommend(chillers[1..]);
      WarningsAreLowCop(chillers[1..]);
    }
  }

  /** The threshold is strict: COP 3.4 draws a warning, COP 3.5 does not. */
  lemma ThresholdBoundary(name: string, capacity: real)
    ensures Recommend([Chiller(name, capacity, 3.4)]) == [Advice(Warning, name)]
    ensures Recommend([Chiller(name, capacity, 3.5)]) == [Advice(Info, name)]
  {
  }
}
