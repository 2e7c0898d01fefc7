/**
 * The instrument catalog: the uniqueness helpers of Utils.cpp and the
 * InstrumentManager class of InstrumentManager.cpp.
 */
module Catalog {
  import opened Instruments

  /** isUniqueInstrument: the instrument's (id, MIC, currency) triple is not yet taken. */
  predicate IsUniqueInstrument(keys: set<Key>, inst: Instrument) {
    inst.KeyOf() !in keys
  }

  /**
   * The free function addInstrument of Utils.cpp, which updates the caller's
   * set: the returned flag and the set the caller holds afterwards.
   */
  function AddKey(keys: set<Key>, inst: Instrument): (r: (bool, set<Key>))
    ensures r.0 <==> inst.KeyOf() !in keys
    ensures r.0 ==> r.1 == keys + {inst.KeyOf()}
    ensures !r.0 ==> r.1 == keys
    ensures inst.KeyOf() in r.1
  {
    if IsUniqueInstrument(keys, inst) then (true, keys + {inst.KeyOf()}) else (false, keys)
  }

  /** Adding the same instrument twice succeeds, then fails, and leaves the set one call leaves. */
  lemma AddKeyTwice(keys: set<Key>, inst: Instrument)
    requires IsUniqueInstrument(keys, inst)
    ensures AddKey(keys, inst).0
    ensures !AddKey(AddKey(keys, inst).1, inst).0
    ensures AddKey(AddKey(keys, inst).1, inst).1 == AddKey(keys, inst).1
    ensures |AddKey(keys, inst).1| == |keys| + 1
  {
  }

  /** Only the triple decides: two instruments with the same triple are duplicates whatever else differs. */
  lemma DuplicateByTripleOnly(keys: set<Key>, a: Instrument, b: Instrument)
    requires a.KeyOf() == b.KeyOf()
    ensures !AddKey(AddKey(keys, a).1, b).0
  {
  }

  /** The triples of a sequence of instruments. */
  function KeysOf(insts: seq<Instrument>): set<Key> {
    set i | i in insts :: i.KeyOf()
  }

  /** No two stored instruments share a triple. */
  predicate DistinctKeys(insts: seq<Instrument>) {
    forall i, j :: 0 <= i < j < |insts| ==> insts[i].KeyOf() != insts[j].KeyOf()
  }

  class InstrumentManager {
    var instrumentSet: set<Key>
    var instruments: seq<Instrument>

    /** The set is exactly the triples of the vector, and the vector holds no duplicate triple. */
    ghost predicate Valid()
      reads this
    {
      instrumentSet == KeysOf(instruments) && DistinctKeys(instruments)
    }

    constructor ()
      ensures Valid() && instruments == [] && instrumentSet == {}
    {
      instrumentSet := {};
      instruments := [];
    }

    /**
     * Admits the instrument when its triple is new (one element appended to
     * the vector, its triple added to the set); otherwise changes nothing.
     */
    method AddInstrument(inst: Instrument) returns (added: bool)
      requires Valid()
      modifies this
      ensures Valid()
      ensures added <==> IsUniqueInstrument(old(instrumentSet), inst)
      ensures added ==> instruments == old(instruments) + [inst] && instrumentSet == old(instrumentSet) + {inst.KeyOf()}
      ensures !added ==> instruments == old(instruments) && instrumentSet == old(instrumentSet)
    {
      if IsUniqueInstrument(instrumentSet, inst) {
        instrumentSet := instrumentSet + {inst.KeyOf()};
        instruments := instruments + [inst];
        assert KeysOf(instruments) == KeysOf(old(instruments)) + {inst.KeyOf()} by {
          assert forall i :: i in instruments <==> i in old(instruments) || i == inst;
        }
        added := true;
      } else {
        added := false;
      }
    }

    /** getInstruments: the instruments in insertion order, each with its own triple. */
    function GetInstruments(): (r: seq<Instrument>)
      reads this
      requires Valid()
      ensures r == instruments
      ensures DistinctKeys(r) && KeysOf(r) == instrumentSet
    {
      instruments
    }
  }
}
