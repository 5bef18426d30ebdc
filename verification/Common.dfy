/** Shared vocabulary. */
module Common {

  type byte = x: int | 0 <= x < 256

  datatype Option<+T> = None | Some(value: T)

  ghost function Range(start: nat, end: nat): (s: set<nat>)
    ensures forall k :: k in s <==> start <= k < end
  {
    if start >= end then {} else Range(start, end - 1) + {end - 1}
  }
}
