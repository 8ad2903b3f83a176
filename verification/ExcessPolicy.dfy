/** The per-priority choice of what a full receive queue does with a segment of equal priority, packed
  * into one 32-bit word.
  */
module ExcessPolicy {

  const OVERWRITE: int := 0
  const DROP: int := 1
  const MAX_PRIORITY: int := 31
  const NRK_OK: int := 1
  const NRK_ERROR: int := -1

  predicate ValidPriority(prio: int) {
    0 < prio <= MAX_PRIORITY
  }

  function BitAt(word: bv32, k: bv6): bv32
    requires k < 32
  {
    (word >> k) & 1
  }

  /** The word with bit k set or cleared. */
  function WithBit(w: bv32, k: bv6, on: bool): bv32
    requires k < 32
  {
    if on then w | ((1 as bv32) << k) else w & !((1 as bv32) << k)
  }

  function Shift(prio: int): (k: bv6)
    requires ValidPriority(prio)
    ensures k < 32
  {
    prio as bv6
  }

  lemma SetReads(w: bv32, prio: int, on: bool, other: int)
    requires ValidPriority(prio) && ValidPriority(other)
    ensures BitAt(WithBit(w, Shift(prio), on), Shift(other)) ==
            if other == prio then (if on then 1 else 0) else BitAt(w, Shift(other))
  {
  }

  /** The word excessPolicySettings and the calls that set and read it. */
  class Settings {
    var word: bv32

    function Policy(prio: int): int
      reads this
    {
      if !ValidPriority(prio) then NRK_ERROR else if BitAt(word, Shift(prio)) == 0 then OVERWRITE else DROP
    }

    /** All priorities start with OVERWRITE. */
    constructor ()
      ensures forall prio :: ValidPriority(prio) ==> Policy(prio) == OVERWRITE
    {
      word := 0;
      new;
      forall prio | ValidPriority(prio) ensures Policy(prio) == OVERWRITE {
        assert BitAt(0, Shift(prio)) == 0;
      }
    }

    /** Setting one priority's policy is seen at that priority and at no other. */
    method SetExcessPolicy(prio: int, pref: int) returns (r: int)
      modifies this
      ensures r == if ValidPriority(prio) && (pref == OVERWRITE || pref == DROP) then NRK_OK else NRK_ERROR
      ensures forall other :: Policy(other) == if r == NRK_OK && other == prio then pref else old(Policy(other))
    {
      if !ValidPriority(prio) || (pref != OVERWRITE && pref != DROP) {
        return NRK_ERROR;
      }
      ghost var was := word;
      word := WithBit(word, Shift(prio), pref == DROP);
      forall other | ValidPriority(other)
        ensures BitAt(word, Shift(other)) ==
                if other == prio then (if pref == DROP then 1 else 0) else BitAt(was, Shift(other))
      {
        SetReads(was, prio, pref == DROP, other);
      }
      r := NRK_OK;
    }
  }
}
