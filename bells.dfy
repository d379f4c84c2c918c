/**
 * Bell mapping: the five bells sound the pitch classes C, D, E, F and G
 * (Do, Ré, Mi, Fa, Sol); any MIDI pitch is sent to one of them.
 */
module Bells {

  datatype Bell = Do | Re | Mi | Fa | Sol

  /** The pitch classes that have a bell, in ascending order. */
  const Allowed: seq<nat> := [0, 2, 4, 5, 7]

  const BellMap: map<nat, Bell> := map[0 := Do, 2 := Re, 4 := Mi, 5 := Fa, 7 := Sol]

  /** The pitch class a bell sounds. */
  function PitchClassOf(b: Bell): nat {
    match b
    case Do => 0
    case Re => 2
    case Mi => 4
    case Fa => 5
    case Sol => 7
  }

  /**
   * `min((p - a) % 12, (a - p) % 12)`: Python's `%` with a positive modulus
   * is never negative, like Dafny's.
   */
  function CircularDistance(p: int, a: int): nat {
    var up := (p - a) % 12;
    var down := (a - p) % 12;
    if up < down then up else down
  }

  /** The first candidate at the least circular distance from `pc` (Python's `min` with a key). */
  function Closest(pc: int, cands: seq<nat>): (i: nat)
    requires cands != []
    ensures i < |cands|
    ensures forall j :: 0 <= j < |cands| ==> CircularDistance(pc, cands[i]) <= CircularDistance(pc, cands[j])
    ensures forall j :: 0 <= j < i ==> CircularDistance(pc, cands[i]) < CircularDistance(pc, cands[j])
  {
    if |cands| == 1 then 0
    else
      var b := Closest(pc, cands[..|cands| - 1]);
      if CircularDistance(pc, cands[|cands| - 1]) < CircularDistance(pc, cands[b]) then |cands| - 1 else b
  }

  /**
   * `b` sounds an allowed pitch class at the least circular distance from
   * `pc`, and no lower allowed class is as close (ties go to the first
   * allowed class, the lower one).
   */
  predicate IsNearestBell(pc: int, b: Bell) {
    && PitchClassOf(b) in Allowed
    && forall j :: 0 <= j < |Allowed| ==>
         && CircularDistance(pc, PitchClassOf(b)) <= CircularDistance(pc, Allowed[j])
         && (Allowed[j] < PitchClassOf(b) ==> CircularDistance(pc, PitchClassOf(b)) < CircularDistance(pc, Allowed[j]))
  }

  /**
   * The bell for a pitch.  Pitch classes up to the lowest allowed one (C)
   * and from the highest one (G) up are clamped to Do and Sol; only those in
   * between use the circular distance, so B goes to Sol, not to the nearer Do.
   */
  function MapToNearestBell(pitch: nat): (b: Bell)
    ensures pitch % 12 == 0 ==> b == Do
    ensures pitch % 12 >= 7 ==> b == Sol
    ensures 0 < pitch % 12 < 7 ==> IsNearestBell(pitch % 12, b)
  {
    var pc := pitch % 12;
    if pc <= Allowed[0] then BellMap[Allowed[0]]
    else if pc >= Allowed[|Allowed| - 1] then BellMap[Allowed[|Allowed| - 1]]
    else
      var i := Closest(pc, Allowed);
      assert forall j :: 0 <= j < |Allowed| ==> PitchClassOf(BellMap[Allowed[j]]) == Allowed[j];
      BellMap[Allowed[i]]
  }

  /** At most one bell is the nearest: the tie rule leaves no choice. */
  lemma NearestBellUnique(pc: int, b: Bell, b': Bell)
    requires IsNearestBell(pc, b) && IsNearestBell(pc, b')
    ensures b == b'
  {
    match b case Do => case Re => case Mi => case Fa => case Sol =>
  }

  /** The nearest bell of each pitch class strictly between C and G, by table. */
  function TableBell(pc: int): Bell
    requires 0 < pc < 7
  {
    [Do, Do, Re, Re, Mi, Fa, Fa][pc]
  }

  lemma {:induction false} TableBellIsNearest(pc: int)
    requires 0 < pc < 7
    ensures IsNearestBell(pc, TableBell(pc))
  {
    var b := TableBell(pc);
    forall j | 0 <= j < |Allowed|
      ensures CircularDistance(pc, PitchClassOf(b)) <= CircularDistance(pc, Allowed[j])
      ensures Allowed[j] < PitchClassOf(b) ==> CircularDistance(pc, PitchClassOf(b)) < CircularDistance(pc, Allowed[j])
    {
    }
  }

  /** The whole table, pitch class by pitch class: 1 goes to Do, 3 to Ré and 6 to Fa. */
  lemma BellTable(pitch: nat)
    ensures pitch % 12 <= 1 ==> MapToNearestBell(pitch) == Do
    ensures 2 <= pitch % 12 <= 3 ==> MapToNearestBell(pitch) == Re
    ensures pitch % 12 == 4 ==> MapToNearestBell(pitch) == Mi
    ensures 5 <= pitch % 12 <= 6 ==> MapToNearestBell(pitch) == Fa
    ensures 7 <= pitch % 12 ==> MapToNearestBell(pitch) == Sol
  {
    var pc := pitch % 12;
    if 0 < pc < 7 {
      TableBellIsNearest(pc);
      NearestBellUnique(pc, MapToNearestBell(pitch), TableBell(pc));
    }
  }
}
