/** Keys and values of the LMDB databases (crates/storage/src/implementations/heed/encoding.rs). */
module HeedEncoding {
  import opened ByteStrings
  import opened Types
  import opened BigEndian

  const DOCUMENT_KEY_LEN := 32
  const CATALOG_KEY_LEN := 16
  const NODE_PREFIX_LEN := 16
  const SEGMENT_SIZE := 495
  const ROOT_CHAIN: U64 := 0

  /** A string held in memory: its length fits in 64 bits. */
  type Name = s: Bytes | |s| < TWO_64

  // ---------------------------------------------------------------- numbers

  function DecodeI64(bytes: Bytes): Result<I64> {
    if |bytes| == 8 then Success(FromI64Be(bytes)) else Failure(InvalidData)
  }

  function DecodeU64(bytes: Bytes): Result<U64> {
    if |bytes| == 8 then Success(FromU64Be(bytes)) else Failure(InvalidData)
  }

  function DecodeU128(bytes: Bytes): Result<U128> {
    if |bytes| == 16 then Success(FromU128Be(bytes)) else Failure(InvalidData)
  }

  lemma NumbersRoundTrip(i: I64, n: U64, d: U128)
    ensures DecodeI64(I64Be(i)) == Success(i)
    ensures DecodeU64(U64Be(n)) == Success(n)
    ensures DecodeU128(U128Be(d)) == Success(d)
  {
    I64RoundTrip(i);
    U64RoundTrip(n);
    U128RoundTrip(d);
  }

  // -------------------------------------------------------------- documents

  function EncodeDocumentKey(collection: CollectionId, document: DocumentId, version: U64): (b: Bytes)
    ensures |b| == DOCUMENT_KEY_LEN
  {
    I64Be(collection) + U128Be(document) + U64Be(version)
  }

  function DecodeDocumentKey(bytes: Bytes): Result<(CollectionId, DocumentId, U64)> {
    if |bytes| != DOCUMENT_KEY_LEN then Failure(InvalidData)
    else
      var collection :- DecodeI64(bytes[..8]);
      var document :- DecodeU128(bytes[8..24]);
      var version :- DecodeU64(bytes[24..]);
      Success((collection, document, version))
  }

  lemma DocumentKeyRoundTrip(c: CollectionId, d: DocumentId, v: U64)
    ensures DecodeDocumentKey(EncodeDocumentKey(c, d, v)) == Success((c, d, v))
  {
    var bytes := EncodeDocumentKey(c, d, v);
    assert bytes[..8] == I64Be(c);
    assert bytes[8..24] == U128Be(d);
    assert bytes[24..] == U64Be(v);
    NumbersRoundTrip(c, v, d);
  }

  /** Stored document keys sort by collection, then document, then version. */
  lemma DocumentKeyOrder(c: CollectionId, d: DocumentId, v: U64, c': CollectionId, d': DocumentId, v': U64)
    ensures Less(EncodeDocumentKey(c, d, v), EncodeDocumentKey(c', d', v'))
       <==> Unsigned(c) < Unsigned(c') || (c == c' && (d < d' || (d == d' && v < v')))
    ensures EncodeDocumentKey(c, d, v) == EncodeDocumentKey(c', d', v') <==> c == c' && d == d' && v == v'
  {
    I64Order(c, c');
    U128Order(d, d');
    U64Order(v, v');
    LessFields(I64Be(c), I64Be(c'), U128Be(d) + U64Be(v), U128Be(d') + U64Be(v'));
    LessFields(U128Be(d), U128Be(d'), U64Be(v), U64Be(v'));
    assert EncodeDocumentKey(c, d, v) == I64Be(c) + (U128Be(d) + U64Be(v));
    assert EncodeDocumentKey(c', d', v') == I64Be(c') + (U128Be(d') + U64Be(v'));
    DocumentKeyRoundTrip(c, d, v);
    DocumentKeyRoundTrip(c', d', v');
  }

  function EncodeVacuumTargetKey(collection: CollectionId, document: DocumentId): Bytes {
    I64Be(collection) + U128Be(document)
  }

  /** The vacuum key of a document is the prefix that the keys of its versions share, and of no other document's. */
  lemma VacuumTargetPrefix(c: CollectionId, d: DocumentId, c': CollectionId, d': DocumentId, v: U64)
    ensures EncodeVacuumTargetKey(c, d) <= EncodeDocumentKey(c', d', v) <==> c == c' && d == d'
    ensures EncodeVacuumTargetKey(c, d) == EncodeVacuumTargetKey(c', d') <==> c == c' && d == d'
  {
    assert EncodeDocumentKey(c', d', v) == EncodeVacuumTargetKey(c', d') + U64Be(v);
    assert EncodeDocumentKey(c, d, v) == EncodeVacuumTargetKey(c, d) + U64Be(v);
    if EncodeVacuumTargetKey(c, d) <= EncodeDocumentKey(c', d', v) {
      assert EncodeDocumentKey(c', d', v)[..24] == EncodeVacuumTargetKey(c, d);
      assert EncodeDocumentKey(c', d', v)[..24] == EncodeVacuumTargetKey(c', d');
    }
    DocumentKeyOrder(c, d, v, c', d', v);
  }

  const DOCUMENT_TOMBSTONE: Bytes := [0x00]

  function EncodeDocumentValue(value: Bytes): Bytes {
    [0x01] + value
  }

  /** A live value, a tombstone, or an error for anything else. */
  function DecodeDocumentValue(bytes: Bytes): Result<Option<Bytes>> {
    if bytes == [] then Failure(InvalidData)
    else if bytes[0] == 0x01 then Success(Some(bytes[1..]))
    else if bytes[0] == 0x00 then if |bytes| == 1 then Success(None) else Failure(InvalidData)
    else Failure(InvalidData)
  }

  lemma DocumentValueRoundTrip(value: Bytes)
    ensures DecodeDocumentValue(EncodeDocumentValue(value)) == Success(Some(value))
    ensures DecodeDocumentValue(DOCUMENT_TOMBSTONE) == Success(None)
  {
    assert EncodeDocumentValue(value)[1..] == value;
  }

  // ------------------------------------------------------------ index nodes

  function IndexNodePrefix(index: IndexId, chain: U64): (b: Bytes)
    ensures |b| == NODE_PREFIX_LEN
  {
    I64Be(index) + U64Be(chain)
  }

  function EncodeIndexNodeKey(index: IndexId, chain: U64, segment: Bytes): (b: Bytes)
    ensures |b| == NODE_PREFIX_LEN + |segment|
  {
    I64Be(index) + U64Be(chain) + segment
  }

  function DecodeIndexNodeKey(bytes: Bytes): Result<(IndexId, U64, Bytes)> {
    if |bytes| < NODE_PREFIX_LEN then Failure(InvalidData)
    else
      var index :- DecodeI64(bytes[..8]);
      var chain :- DecodeU64(bytes[8..NODE_PREFIX_LEN]);
      Success((index, chain, bytes[NODE_PREFIX_LEN..]))
  }

  lemma IndexNodeKeyRoundTrip(index: IndexId, chain: U64, segment: Bytes)
    ensures DecodeIndexNodeKey(EncodeIndexNodeKey(index, chain, segment)) == Success((index, chain, segment))
  {
    var bytes := EncodeIndexNodeKey(index, chain, segment);
    assert bytes[..8] == I64Be(index);
    assert bytes[8..16] == U64Be(chain);
    assert bytes[16..] == segment;
    NumbersRoundTrip(index, chain, 0);
  }

  /** Any key of at least 16 bytes is a node key. */
  lemma IndexNodeKeyOnto(bytes: Bytes)
    requires |bytes| >= NODE_PREFIX_LEN
    ensures DecodeIndexNodeKey(bytes).Success?
    ensures var (index, chain, segment) := DecodeIndexNodeKey(bytes).value;
            EncodeIndexNodeKey(index, chain, segment) == bytes
  {
    I64Onto(bytes[..8]);
    U64Onto(bytes[8..16]);
    assert bytes == bytes[..8] + bytes[8..16] + bytes[16..];
  }

  /** The rows of one node are the rows with its prefix, sorted by segment. */
  lemma IndexNodeKeyPrefix(index: IndexId, chain: U64, index': IndexId, chain': U64, segment: Bytes)
    ensures IndexNodePrefix(index, chain) <= EncodeIndexNodeKey(index', chain', segment)
       <==> index == index' && chain == chain'
  {
    var key := EncodeIndexNodeKey(index', chain', segment);
    assert key[..16] == I64Be(index') + U64Be(chain');
    if IndexNodePrefix(index, chain) <= key {
      assert key[..16] == IndexNodePrefix(index, chain);
      SplitEqual(I64Be(index), I64Be(index'), U64Be(chain), U64Be(chain'));
      I64Order(index, index');
      U64Order(chain, chain');
    }
  }

  lemma IndexNodeKeyOrder(index: IndexId, chain: U64, s: Bytes, t: Bytes)
    ensures Less(EncodeIndexNodeKey(index, chain, s), EncodeIndexNodeKey(index, chain, t)) <==> Less(s, t)
  {
    LessCommonPrefix(IndexNodePrefix(index, chain), s, t);
  }

  // ---------------------------------------------------------------- catalog

  function EncodeCollectionCatalogKey(collection: CollectionId, version: U64): (b: Bytes)
    ensures |b| == CATALOG_KEY_LEN
  {
    I64Be(collection) + U64Be(version)
  }

  function DecodeCollectionCatalogKey(bytes: Bytes): Result<(CollectionId, U64)> {
    if |bytes| != CATALOG_KEY_LEN then Failure(InvalidData)
    else
      var collection :- DecodeI64(bytes[..8]);
      var version :- DecodeU64(bytes[8..]);
      Success((collection, version))
  }

  lemma CollectionCatalogKeyRoundTrip(c: CollectionId, v: U64)
    ensures DecodeCollectionCatalogKey(EncodeCollectionCatalogKey(c, v)) == Success((c, v))
  {
    var bytes := EncodeCollectionCatalogKey(c, v);
    assert bytes[..8] == I64Be(c);
    assert bytes[8..] == U64Be(v);
    NumbersRoundTrip(c, v, 0);
  }

  lemma CollectionCatalogKeyOrder(c: CollectionId, v: U64, c': CollectionId, v': U64)
    ensures Less(EncodeCollectionCatalogKey(c, v), EncodeCollectionCatalogKey(c', v'))
       <==> Unsigned(c) < Unsigned(c') || (c == c' && v < v')
    ensures EncodeCollectionCatalogKey(c, v) == EncodeCollectionCatalogKey(c', v') <==> c == c' && v == v'
  {
    I64Order(c, c');
    U64Order(v, v');
    LessFields(I64Be(c), I64Be(c'), U64Be(v), U64Be(v'));
    CollectionCatalogKeyRoundTrip(c, v);
    CollectionCatalogKeyRoundTrip(c', v');
  }

  function EncodeCollectionCatalogValue(name: Name, metadata: Bytes): Bytes {
    U64Be(|name|) + name + metadata
  }

  function DecodeCollectionCatalogValue(bytes: Bytes): Result<(Name, Bytes)> {
    if |bytes| < 8 then Failure(InvalidData)
    else
      var length := FromU64Be(bytes[..8]);
      var end := 8 + length;
      if |bytes| < end then Failure(InvalidData)
      else Success((bytes[8..end], bytes[end..]))
  }

  lemma CollectionCatalogValueRoundTrip(name: Name, metadata: Bytes)
    ensures DecodeCollectionCatalogValue(EncodeCollectionCatalogValue(name, metadata)) == Success((name, metadata))
  {
    var bytes := EncodeCollectionCatalogValue(name, metadata);
    assert bytes[..8] == U64Be(|name|);
    U64RoundTrip(|name|);
    assert bytes[8..8 + |name|] == name;
    assert bytes[8 + |name|..] == metadata;
  }

  function EncodeIndexCatalogKey(collection: CollectionId, name: Name): Bytes {
    I64Be(collection) + name
  }

  function DecodeIndexCatalogKey(bytes: Bytes): Result<(CollectionId, Bytes)> {
    if |bytes| < 8 then Failure(InvalidData)
    else
      var collection :- DecodeI64(bytes[..8]);
      Success((collection, bytes[8..]))
  }

  lemma IndexCatalogKeyRoundTrip(c: CollectionId, name: Name)
    ensures DecodeIndexCatalogKey(EncodeIndexCatalogKey(c, name)) == Success((c, name))
  {
    var bytes := EncodeIndexCatalogKey(c, name);
    assert bytes[..8] == I64Be(c);
    assert bytes[8..] == name;
    I64RoundTrip(c);
  }

  function EncodeIndexCatalogValue(id: IndexId, metadata: Bytes): Bytes {
    I64Be(id) + metadata
  }

  function DecodeIndexCatalogValue(bytes: Bytes): Result<(IndexId, Bytes)> {
    if |bytes| < 8 then Failure(InvalidData)
    else
      var id :- DecodeI64(bytes[..8]);
      Success((id, bytes[8..]))
  }

  lemma IndexCatalogValueRoundTrip(id: IndexId, metadata: Bytes)
    ensures DecodeIndexCatalogValue(EncodeIndexCatalogValue(id, metadata)) == Success((id, metadata))
  {
    var bytes := EncodeIndexCatalogValue(id, metadata);
    assert bytes[..8] == I64Be(id);
    assert bytes[8..] == metadata;
    I64RoundTrip(id);
  }

  // --------------------------------------------------------------- segments

  /** `chunks(495)`. */
  function Chunks(value: Bytes): (segments: seq<Bytes>)
    ensures value != [] ==> segments != []
    decreases |value|
  {
    if value == [] then []
    else if |value| <= SEGMENT_SIZE then [value]
    else [value[..SEGMENT_SIZE]] + Chunks(value[SEGMENT_SIZE..])
  }

  function SplitIndexKey(value: Bytes): (segments: seq<Bytes>)
    ensures segments != []
  {
    if value == [] then [[]] else Chunks(value)
  }

  function Join(segments: seq<Bytes>): Bytes {
    if segments == [] then [] else segments[0] + Join(segments[1..])
  }

  /** What `split_index_key` may return: full segments, then one that is empty only if it is alone. */
  ghost predicate IsSegmentation(segments: seq<Bytes>) {
    && |segments| >= 1
    && (forall i | 0 <= i < |segments| - 1 :: |segments[i]| == SEGMENT_SIZE)
    && |segments[|segments| - 1]| <= SEGMENT_SIZE
    && (|segments| > 1 ==> segments[|segments| - 1] != [])
  }

  lemma {:induction false} SplitIndexKeySegments(value: Bytes)
    ensures IsSegmentation(SplitIndexKey(value)) && Join(SplitIndexKey(value)) == value
    decreases |value|
  {
    if |value| > SEGMENT_SIZE {
      var rest := value[SEGMENT_SIZE..];
      SplitIndexKeySegments(rest);
      var segments := SplitIndexKey(value);
      assert segments[1..] == SplitIndexKey(rest);
      assert forall i | 1 <= i < |segments| :: segments[i] == SplitIndexKey(rest)[i - 1];
      assert value == value[..SEGMENT_SIZE] + rest;
    } else {
      assert SplitIndexKey(value) == [value];
      assert Join([value]) == value + Join([]);
    }
  }

  /** A value has exactly one segmentation, so it has exactly one place in the trie. */
  lemma {:induction false} SegmentationUnique(segments: seq<Bytes>)
    requires IsSegmentation(segments)
    ensures SplitIndexKey(Join(segments)) == segments
  {
    var value := Join(segments);
    if |segments| == 1 {
      assert value == segments[0] + Join([]) == segments[0];
    } else {
      var rest := segments[1..];
      SegmentationUnique(rest);
      assert rest[|rest| - 1] == segments[|segments| - 1];
      JoinNonEmpty(rest);
      assert value[..SEGMENT_SIZE] == segments[0] && value[SEGMENT_SIZE..] == Join(rest);
    }
  }

  lemma {:induction false} JoinNonEmpty(segments: seq<Bytes>)
    requires |segments| >= 1 && segments[|segments| - 1] != []
    ensures Join(segments) != []
  {
    if |segments| > 1 {
      JoinNonEmpty(segments[1..]);
    }
  }
}
