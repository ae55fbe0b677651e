/** The allocation table of the DOS object, changed in place by INT 21h. */
module DosHost {
  import opened Memory
  import opened DosMemory

  class DOSMachine {
    var allocations: map<nat, nat>
    var allocationLimitSegment: nat
    var nextAllocSegment: nat

    constructor ()
      ensures allocations == map[] && allocationLimitSegment == 0xA000 && nextAllocSegment == 0x7000
    {
      allocations, allocationLimitSegment, nextAllocSegment := map[], 0xA000, 0x7000;
    }

    ghost function State(): Dos
      reads this
    {
      Dos(allocations, allocationLimitSegment, nextAllocSegment)
    }

    /** Register the block that belongs to the PSP; an empty or inverted block is refused. */
    method SeedInitialMemoryBlock(pspSegment: nat, topSegment: nat) returns (ok: bool)
      requires allocations == map[]
      modifies this
      ensures var (psp, top) := (pspSegment % PARAGRAPHS, topSegment % PARAGRAPHS);
              ok == (psp < top)
              && if ok then State() == Seeded(psp, top) && Valid(State(), psp) else State() == old(State())
    {
      var psp, top := pspSegment % PARAGRAPHS, topSegment % PARAGRAPHS;
      if top <= psp {
        return false;
      }
      allocationLimitSegment := top;
      allocations := allocations[psp := top - psp];
      nextAllocSegment := top;
      SeededValid(psp, top);
      ok := true;
    }

    /** The free gaps from the lowest live block up. */
    method FreeGaps() returns (gaps: seq<Gap>)
      ensures gaps == DosMemory.FreeGaps(State())
    {
      var floor := if allocations == map[] then nextAllocSegment else Min(allocations.Keys);
      gaps := ScanGaps(Sorted(allocations.Keys), allocations, floor, allocationLimitSegment);
    }

    /** The first gap that is large enough. */
    method FindFreeGap(paragraphs: nat) returns (seg: Option<nat>)
      ensures seg == FirstFit(DosMemory.FreeGaps(State()), paragraphs)
    {
      var gaps := FreeGaps();
      assert gaps[0..] == gaps;
      for i := 0 to |gaps|
        invariant FirstFit(gaps[i..], paragraphs) == FirstFit(gaps, paragraphs)
      {
        assert gaps[i..][0] == gaps[i] && gaps[i..][1..] == gaps[i + 1..];
        if gaps[i].size >= paragraphs {
          return Some(gaps[i].start);
        }
      }
      seg := None;
    }

    method LargestFreeGap() returns (size: nat)
      ensures size == LargestOf(DosMemory.FreeGaps(State()))
    {
      var gaps := FreeGaps();
      size := 0;
      var i := |gaps|;
      assert gaps[|gaps|..] == [];
      while i > 0
        invariant 0 <= i <= |gaps| && size == LargestOf(gaps[i..])
      {
        i := i - 1;
        assert gaps[i..][0] == gaps[i] && gaps[i..][1..] == gaps[i + 1..];
        size := Larger(gaps[i].size, size);
      }
      assert gaps[0..] == gaps;
    }

    /** AH=48h */
    method Allocate(bx: nat) returns (r: Reply)
      modifies this`allocations, this`nextAllocSegment
      ensures (State(), r) == DosMemory.Allocate(old(State()), bx)
      ensures forall psp :: Valid(old(State()), psp) ==> Allocated(old(State()), bx, State(), r) && Valid(State(), psp)
    {
      hide DosMemory.FreeGaps, FirstFit, LargestOf, Valid, Allocated;
      AllocateAlways(State(), bx);
      if bx == 0 {
        var m := LargestFreeGap();
        return Fail(8, m % PARAGRAPHS);
      }
      var seg := FindFreeGap(bx);
      match seg {
        case None =>
          var m := LargestFreeGap();
          r := Fail(8, m % PARAGRAPHS);
        case Some(s) =>
          allocations := allocations[s := bx];
          nextAllocSegment := Larger(s + bx, nextAllocSegment);
          r := Ok(s);
      }
    }

    /** AH=49h */
    method Free(es: nat)
      modifies this`allocations
      ensures State() == DosMemory.Free(old(State()), es)
    {
      allocations := allocations - {es};
    }

    /** AH=4Ah */
    method Resize(es: nat, bx: nat) returns (r: Reply)
      modifies this`allocations, this`nextAllocSegment
      ensures (State(), r) == DosMemory.Resize(old(State()), es, bx)
      ensures forall psp :: Valid(old(State()), psp) ==> Resized(old(State()), es, bx, State(), r) && Valid(State(), psp)
    {
      hide NextUsed, Valid, Resized;
      ResizeAlways(State(), es, bx);
      if es !in allocations {
        return Fail(7, bx);
      }
      var oldEnd, newEnd := es + allocations[es], es + bx;
      if newEnd <= oldEnd {
        allocations := allocations[es := bx];
        return Done;
      }
      var nextUsed := NextUsed(Dos(allocations, allocationLimitSegment, nextAllocSegment), oldEnd);
      if newEnd > nextUsed || newEnd > allocationLimitSegment {
        return Fail(8, (Smaller(nextUsed, allocationLimitSegment) - es) % PARAGRAPHS);
      }
      allocations := allocations[es := bx];
      nextAllocSegment := Larger(newEnd, nextAllocSegment);
      r := Done;
    }
  }

  /** The cursor loop over the blocks in address order. */
  method ScanGaps(starts: seq<nat>, blocks: map<nat, nat>, floor: nat, limit: nat) returns (gaps: seq<Gap>)
    requires forall s :: s in starts ==> s in blocks
    ensures gaps == GapsFrom(starts, blocks, floor, limit)
  {
    hide GapsFrom, Larger;
    gaps := [];
    var cursor: nat := floor;
    assert starts[0..] == starts;
    for i := 0 to |starts|
      invariant gaps + GapsFrom(starts[i..], blocks, cursor, limit) == GapsFrom(starts, blocks, floor, limit)
    {
      GapsAt(starts, i, blocks, cursor, limit, gaps);
      var seg := starts[i];
      if seg >= cursor {
        if seg > cursor {
          gaps := gaps + [Gap(cursor, seg - cursor)];
        }
        cursor := Larger(cursor, seg + blocks[seg]);
      }
    }
    GapsEnd(starts, blocks, cursor, limit);
    if cursor < limit {
      gaps := gaps + [Gap(cursor, limit - cursor)];
    }
  }

  /** One iteration of the scan, after the gaps found so far. */
  lemma GapsAt(starts: seq<nat>, i: nat, blocks: map<nat, nat>, cursor: nat, limit: nat, found: seq<Gap>)
    requires i < |starts| && forall s :: s in starts ==> s in blocks
    ensures var (seg, rest) := (starts[i], starts[i + 1..]);
            found + GapsFrom(starts[i..], blocks, cursor, limit)
            == if seg < cursor then found + GapsFrom(rest, blocks, cursor, limit)
               else (if seg > cursor then found + [Gap(cursor, seg - cursor)] else found)
                    + GapsFrom(rest, blocks, Larger(cursor, seg + blocks[seg]), limit)
  {
    assert starts[i..][0] == starts[i] && starts[i..][1..] == starts[i + 1..];
  }

  lemma GapsEnd(starts: seq<nat>, blocks: map<nat, nat>, cursor: nat, limit: nat)
    ensures starts[|starts|..] == []
    ensures GapsFrom([], blocks, cursor, limit) == if cursor < limit then [Gap(cursor, limit - cursor)] else []
  {
  }

  lemma AllocateAlways(d: Dos, bx: nat)
    ensures forall psp :: Valid(d, psp) ==>
              Allocated(d, bx, DosMemory.Allocate(d, bx).0, DosMemory.Allocate(d, bx).1) && Valid(DosMemory.Allocate(d, bx).0, psp)
  {
    hide *;
    forall psp: nat | Valid(d, psp)
      ensures Allocated(d, bx, DosMemory.Allocate(d, bx).0, DosMemory.Allocate(d, bx).1)
      ensures Valid(DosMemory.Allocate(d, bx).0, psp)
    {
      AllocateMeans(d, psp, bx);
    }
  }

  lemma ResizeAlways(d: Dos, seg: nat, size: nat)
    ensures forall psp :: Valid(d, psp) ==>
              Resized(d, seg, size, DosMemory.Resize(d, seg, size).0, DosMemory.Resize(d, seg, size).1)
              && Valid(DosMemory.Resize(d, seg, size).0, psp)
  {
    hide *;
    forall psp: nat | Valid(d, psp)
      ensures Resized(d, seg, size, DosMemory.Resize(d, seg, size).0, DosMemory.Resize(d, seg, size).1)
      ensures Valid(DosMemory.Resize(d, seg, size).0, psp)
    {
      ResizeMeans(d, psp, seg, size);
    }
  }
}
