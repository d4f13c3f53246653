/** Power losses while a list of writes is carried out, counting the slot erasures begun. */
module PowerLoss {
  import opened Bytes
  import opened Flash
  import opened Metadata
  import opened Partition
  import opened MetadataLog
  import opened MetadataRegister
  import opened BootPlan

  /** How many slot erasures a write is: one or none. Erasing a metadata copy is part of a record. */
  function Wipes(w: Write): nat { if w.Raw? && w.op.Erase? then 1 else 0 }

  /** The images a power loss can leave while `ws` are carried out, or their completion, with the number of slot
      erasures begun by then. */
  ghost predicate CutWrites(crc: Crc, mem: Image, ws: seq<Write>, after: Image, wiped: nat)
    decreases |ws|
  {
    || (after == mem && wiped == 0)
    || (ws != [] && CutDuring(crc, mem, Expand(crc, ws[0]), after) && wiped == Wipes(ws[0]))
    || (ws != [] && wiped >= Wipes(ws[0])
        && CutWrites(crc, Apply(mem, Expand(crc, ws[0])), ws[1..], after, wiped - Wipes(ws[0])))
  }

  /** Every flash step at which the power can fail is inside some write. */
  lemma {:induction false} CutIsInSomeWrite(crc: Crc, mem: Image, ws: seq<Write>, after: Image) returns (wiped: nat)
    requires CutDuring(crc, mem, ExpandAll(crc, ws), after)
    ensures CutWrites(crc, mem, ws, after, wiped)
    decreases |ws|
  {
    hide Expand, Apply;
    if after == mem {
      wiped := 0;
    } else {
      assert ws != [];
      CutOfConcat(crc, mem, Expand(crc, ws[0]), ExpandAll(crc, ws[1..]), after);
      if CutDuring(crc, mem, Expand(crc, ws[0]), after) {
        wiped := Wipes(ws[0]);
      } else {
        var rest := CutIsInSomeWrite(crc, Apply(mem, Expand(crc, ws[0])), ws[1..], after);
        wiped := rest + Wipes(ws[0]);
      }
    }
  }

  /** Nothing in the way of storing these records: the sequence number does not wrap around, and no checksum
      looks like an unwritten field. */
  ghost predicate Recordable(crc: Crc, m: Metadata, ws: seq<Write>) {
    && m.core.sequence + |ws| < WORD_LIMIT
    && forall i :: 0 <= i < |ws| && ws[i].Put? ==> Distinct(crc, ws[i].record)
  }

  lemma RecordableNext(crc: Crc, m: Metadata, ws: seq<Write>)
    requires ws != [] && Recordable(crc, m, ws)
    ensures ws[0].Raw? ==> Recordable(crc, m, ws[1..])
    ensures ws[0].Put? && Follows(crc, m, ws[0].record) ==> Recordable(crc, ws[0].record, ws[1..])
    ensures ws[0].Put? && Follows(crc, m, ws[0].record) && WellShaped(m) ==> Storable(crc, m, ws[0].record)
  {
    hide Distinct, Sealed, WellShaped;
    forall i | 0 <= i < |ws[1..]| && ws[1..][i].Put? ensures Distinct(crc, ws[1..][i].record) {
      assert ws[1..][i] == ws[i + 1];
    }
  }

  /** An operation on the slots, whole or cut short, leaves the log alone. */
  ghost predicate SlotOp(op: FlashOp) { op.offset + Length(op) <= METADATA_OFFSET }

  lemma SlotOpKeepsLog(cfg: Config, mem: Image, op: FlashOp, after: Image)
    requires SlotOp(op) && LogInv(cfg.crc, mem)
    requires TornBytes(mem, op, after) || after == ApplyOp(mem, op)
    ensures LogInv(cfg.crc, after) && Load(cfg, after) == Load(cfg, mem)
    ensures HasRecord(cfg.crc, mem) ==> HasRecord(cfg.crc, after)
  {
    hide Live, Load, ApplyOp, TornBytes;
    TornElsewhere(mem, op, after, CopyOffset(0), CopyOffset(0) + RECORD_SIZE);
    TornElsewhere(mem, op, after, CopyOffset(1), CopyOffset(1) + RECORD_SIZE);
    SameBytesSameCopy(cfg.crc, mem, after, 0);
    SameBytesSameCopy(cfg.crc, mem, after, 1);
    LoadUnderInv(cfg, mem);
    LoadUnderInv(cfg, after);
  }

  /** A cut in one slot operation. */
  lemma CutInSlotOp(crc: Crc, mem: Image, op: FlashOp, after: Image)
    requires CutDuring(crc, mem, [op], after)
    ensures TornBytes(mem, op, after) || after == ApplyOp(mem, op)
  {
    hide ApplyOp, Live;
    assert [op][1..] == [];
    assert CutDuring(crc, ApplyOp(mem, op), [], after) ==> after == ApplyOp(mem, op);
  }

  lemma OneOp(mem: Image, op: FlashOp)
    ensures Apply(mem, [op]) == ApplyOp(mem, op)
  {
    hide ApplyOp;
    assert [op][1..] == [];
  }
}
