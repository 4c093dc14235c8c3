/** The error values of the data layer (data/dberrors/dberrors.go). */
module DbErrors {
  /** The only error the in-memory store reports, "Item not found": an update whose target id is
      not stored. */
  datatype DbError = ErrItemNotFound
}
