/** The environment's databases as one value: a committed state, a snapshot, or a write transaction's own view. */
module Databases {
  import opened Types
  import opened Lmdb
  import opened IndexTrie
  import opened TrieStorage

  datatype Databases = Databases(
    indexesCatalog: Database,
    collectionsCatalog: Database,
    collectionIdsByName: Database,
    indexEdges: Database,
    indexLeaves: DupDatabase,
    documents: Database,
    metadata: Database,
    vacuumTargets: Database)

  /** The index databases hold a trie whose chain ids are bounded by the counter. */
  ghost predicate IndexesOk(db: Databases, counter: U64) {
    && EdgeRows(db.indexEdges) && LeafRows(db.indexLeaves)
    && Trie(EdgeView(db.indexEdges), LeafView(db.indexLeaves), counter)
  }

  ghost function StoredPostings(db: Databases): iset<Posting>
    requires EdgeRows(db.indexEdges) && LeafRows(db.indexLeaves)
  {
    Postings(EdgeView(db.indexEdges), LeafView(db.indexLeaves))
  }
}
