/** The table of read states, sql/schema.sql:34-42. */
module ItemReads {

  /** A row of item_reads, without its item. */
  datatype ReadRow = ReadRow(isRead: bool, updatedAt: int)
}
