/** The CPU's data port. */
module DataPort {
  import opened Bits

  datatype DataIn = DataIn(addr: Word, data: Word, rd: bool, wr: Nibble, tag: Tag,
                           invalidate: bool, writeback: bool, flush: bool)

  datatype DataOut = DataOut(dataRd: Word, accept: bool, ack: bool, error: bool, respTag: Tag)

  /** A cache maintenance operation with no access. */
  predicate Maintenance(d: DataIn) {
    !d.rd && d.wr == 0 && (d.invalidate || d.writeback || d.flush)
  }

  predicate Active(d: DataIn) {
    d.rd || d.wr != 0 || d.flush || d.invalidate || d.writeback
  }
}
