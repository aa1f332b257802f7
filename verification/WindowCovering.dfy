// Window Covering arithmetic (section 5.3 of the Matter Application Cluster Specification).
// Home Assistant counts open as 100; Matter counts percent100ths closed.
module WindowCovering {
  import opened Wrappers
  import opened Model
  import opened OnOffMap

  function HaPositionToPercent100ths(ha: int): int {
    (100 - Min(ha, 100)) * 100
  }

  function Percent100thsToHaPosition(p: U16): int {
    (10_000 - Min(p, 10_000)) / 100
  }

  datatype LiftError = ConstraintError

  function ValidateLift(p: U16): Result<U16, LiftError> {
    if p > 10_000 then Failure(ConstraintError) else Success(p)
  }

  datatype Motion = Stopped | Opening | Closing

  function OperationalStatus(position: int, target: int, moving: bool): Motion {
    if !moving || position == target then Stopped
    else if target > position then Opening
    else Closing
  }

  datatype CoverHaState = CoverHaState(position: Option<int>, motion: Motion)

  // A float casts towards zero, saturating at 0 below.
  function CastPosition(v: JsonPosition): Option<nat> {
    match v
    case Absent => None
    case Unsigned(n) => Some(n)
    case Number(r) => Some(if r < 0.0 then 0 else r.Floor)
    case Text(parsed) => parsed
    case Other => None
  }

  function HaCoverFromState(v: HaStateValue): (ha: CoverHaState)
    ensures ha.position.Some? ==> 0 <= ha.position.value <= 100
  {
    var s := Normalize(v.state);
    var motion := if s == "opening" then Opening else if s == "closing" then Closing else Stopped;
    var attribute := CastPosition(v.currentPosition);
    var position :=
      if attribute.Some? then Some(Min(attribute.value, 100))
      else if s == "open" then Some(100)
      else if s == "closed" then Some(0)
      else None;
    CoverHaState(position, motion)
  }

  // ---------- What a cover state says ----------

  // A usable `current_position`, cut to 0..=100.
  ghost predicate PositionGiven(v: JsonPosition, position: int) {
    match v
    case Unsigned(n) => position == if n <= 100 then n else 100
    case Number(r) =>
      (r < 1.0 && position == 0) || (100.0 <= r && position == 100)
        || (1.0 <= r < 100.0 && position as real <= r < position as real + 1.0)
    case Text(parsed) => parsed.Some? && position == if parsed.value <= 100 then parsed.value else 100
    case _ => false
  }

  ghost predicate NoPosition(v: JsonPosition) {
    v.Absent? || v.Other? || v == Text(None)
  }

  // The attribute decides the position whatever the state string; only without a usable one do
  // "open" and "closed" count. The motion is spelled out by the state string alone.
  lemma HaCoverReads(v: HaStateValue)
    ensures var ha := HaCoverFromState(v);
      && (forall p: int :: PositionGiven(v.currentPosition, p) ==> ha.position == Some(p))
      && (!NoPosition(v.currentPosition) ==>
            ha.position.Some? && PositionGiven(v.currentPosition, ha.position.value))
      && (NoPosition(v.currentPosition) ==>
            && (ha.position == Some(100) <==> Spells(v.state, "open"))
            && (ha.position == Some(0) <==> Spells(v.state, "closed"))
            && (ha.position == None <==> !Spells(v.state, "open") && !Spells(v.state, "closed")))
      && (ha.motion == Opening <==> Spells(v.state, "opening"))
      && (ha.motion == Closing <==> Spells(v.state, "closing"))
  {
    hide Normalize, Spells;
    NormalizeIff(v.state, "open");
    NormalizeIff(v.state, "closed");
    NormalizeIff(v.state, "opening");
    NormalizeIff(v.state, "closing");
  }

  // Every HA position survives the trip to Matter and back; a Matter percentage comes back
  // rounded up to a whole percent, never less closed than asked.
  lemma LiftRoundTrip(ha: int, p: U16)
    requires 0 <= ha <= 100 && p <= 10_000
    ensures 0 <= HaPositionToPercent100ths(ha) <= 10_000
    ensures Percent100thsToHaPosition(HaPositionToPercent100ths(ha)) == ha
    ensures p <= HaPositionToPercent100ths(Percent100thsToHaPosition(p)) < p + 100
    ensures HaPositionToPercent100ths(Percent100thsToHaPosition(p)) % 100 == 0
  {
  }
}
