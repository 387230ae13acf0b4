/** The types shared by the storage layer: identifiers, cursor starts, results. */
module Types {
  import opened ByteStrings

  datatype Option<+T> = None | Some(value: T)

  datatype Error =
    | InvalidData
    | LowerTimestamp
    | UnknownCollection
    | UnknownIndex
    | NameMismatch
    | CountersExhausted
    | CommitFailed

  datatype Result<+T> = Success(value: T) | Failure(error: Error) {
    predicate IsFailure() {
      Failure?
    }

    function PropagateFailure<U>(): Result<U>
      requires Failure?
    {
      Failure(error)
    }

    function Extract(): T
      requires Success?
    {
      value
    }
  }

  const TWO_63 := 0x8000_0000_0000_0000
  const TWO_64 := 0x1_0000_0000_0000_0000
  const TWO_128 := 0x1_0000_0000_0000_0000_0000_0000_0000_0000

  type U64 = n: int | 0 <= n < TWO_64
  type U128 = n: int | 0 <= n < TWO_128
  type I64 = n: int | -TWO_63 <= n < TWO_63

  const U64_MAX: U64 := TWO_64 - 1

  type CollectionId = I64
  type IndexId = I64
  type DocumentId = U128

  datatype Direction = Forward | Reverse

  datatype CursorStart<T> = Unbounded | Included(at: T) | Excluded(at: T)

  /** A logical index position, ordered by value and then by document id. */
  datatype IndexPosition = IndexPosition(value: Bytes, documentId: DocumentId)

  datatype DocumentEntry = DocumentEntry(id: DocumentId, value: Bytes)

  datatype IndexEntry = IndexEntry(value: Bytes, documentId: DocumentId, documentValue: Bytes)

  /** Whether an element is on the requested side of a cursor's start. */
  predicate Accepts<T(==)>(less: (T, T) -> bool, start: CursorStart<T>, direction: Direction, x: T) {
    match start
    case Unbounded => true
    case Included(at) => x == at || (if direction.Forward? then less(at, x) else less(x, at))
    case Excluded(at) => if direction.Forward? then less(at, x) else less(x, at)
  }

  predicate PositionLess(a: IndexPosition, b: IndexPosition) {
    Less(a.value, b.value) || (a.value == b.value && a.documentId < b.documentId)
  }
}
