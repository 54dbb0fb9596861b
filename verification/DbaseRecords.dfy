/** The DBASE100 record words and the progress-flag bitmap (roth_c/src/engine/dbase100.c,
    roth_c/src/engine/raw_commands.c). */
module DbaseRecords {
  /** One 4-byte record, split into its top byte and 24-bit operand. */
  datatype Rec = Rec(top: nat, operand: nat) {
    predicate Valid() { top < 0x100 && operand < 0x100_0000 }

    /** The opcode; bit 31 of the word is the If-NOT bit. */
    function Op(): nat { top % 0x80 }

    predicate Not() { top >= 0x80 }
  }

  /** The progress bitmap; when it is not loaded every flag reads as set. */
  datatype Bitmap = NoBitmap | Bits(flags: set<nat>) {
    predicate Test(id: nat) { NoBitmap? || id in flags }
  }
}
