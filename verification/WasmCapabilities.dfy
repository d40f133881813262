/**
 Capabilities and imports as the bit masks the device keeps them in. A mask is modelled as
 the set of the positions of its one bits.
 */
module WasmCapabilities {
  import opened WasmFormat

  type Bits = set<nat>

  const CAP_ALL: Bits := {0, 1, 2}

  function CapabilityBit(c: Capability): nat {
    match c case MonotonicTime => 0 case Logging => 1 case Timer => 2
  }

  /** One bit an import, so that both timer calls may be imported once. */
  function ImportBit(i: Import): nat {
    if i == TimerCancel then 3 else CapabilityBit(Needs(i))
  }

  function ImportBits(s: set<Import>): Bits {
    set i | i in s :: ImportBit(i)
  }

  function CapabilityBits(s: set<Capability>): Bits {
    set c | c in s :: CapabilityBit(c)
  }

  predicate Granted(mask: Bits, c: Capability) {
    CapabilityBit(c) in mask
  }

  lemma ImportBitsStep(s: set<Import>, i: Import)
    ensures ImportBit(i) in ImportBits(s) <==> i in s
    ensures ImportBits(s + {i}) == ImportBits(s) + {ImportBit(i)}
  {
    if ImportBit(i) in ImportBits(s) {
      var j :| j in s && ImportBit(j) == ImportBit(i);
      assert i == j;
    }
  }

  lemma CapabilityBitsStep(s: set<Import>, i: Import)
    ensures CapabilityBits(Required(s + {i})) == CapabilityBits(Required(s)) + {CapabilityBit(Needs(i))}
  {
    assert Required(s + {i}) == Required(s) + {Needs(i)};
  }

  lemma NoBits()
    ensures ImportBits({}) == {} && CapabilityBits(Required({})) == {}
  {
  }

  /** A mask covers a set of capabilities when no bit of the set is outside it. */
  lemma MaskCovers(s: set<Capability>, mask: Bits)
    ensures CapabilityBits(s) <= mask <==> forall c | c in s :: Granted(mask, c)
  {
    if CapabilityBits(s) <= mask {
      forall c | c in s ensures Granted(mask, c) {
        assert CapabilityBit(c) in CapabilityBits(s);
      }
    }
  }

  predicate Covers(mask: Bits, imports: set<Import>) {
    forall c | c in Required(imports) :: Granted(mask, c)
  }

  /** The masks stand for the imports of the entries. */
  predicate Masked(entries: seq<ImportEntry>, seen: Bits, capabilities: Bits) {
    seen == ImportBits(ImportSet(entries)) && capabilities == CapabilityBits(Required(ImportSet(entries)))
  }

  lemma NothingMasked()
    ensures Masked([], {}, {})
  {
    NoBits();
  }

  lemma MaskedGrow(entries: seq<ImportEntry>, seen: Bits, capabilities: Bits, e: ImportEntry)
    requires Masked(entries, seen, capabilities) && Known(e.field).Some?
    ensures var found := Known(e.field).value;
            Masked(entries + [e], seen + {ImportBit(found)}, capabilities + {CapabilityBit(Needs(found))})
  {
    var imports := ImportSet(entries);
    assert (entries + [e])[..|entries|] == entries;
    ImportBitsStep(imports, Known(e.field).value);
    CapabilityBitsStep(imports, Known(e.field).value);
  }
}
