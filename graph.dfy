/**
 * import_proteins_and_domains of both build_graph.py scripts: every stored
 * protein document is normalised into a record, records are sent to the
 * graph store in batches of 500, and each batch MERGEs Protein and Domain
 * nodes and HAS_DOMAIN edges. Also the per-protein domain_count.
 */
module GraphImport {
  import opened Common

  /** A key of a stored document: absent, present with null, or present with a value. */
  datatype Field<T> = Missing | Null | Present(v: T)

  /** doc.get(key): None when the key is absent or holds null. */
  function Get<T>(f: Field<T>): Option<T>
  {
    match f
    case Present(v) => Some(v)
    case _ => None
  }

  /** doc.get(key, default): the default only when the key is absent; a stored null stays null. */
  function GetOr<T>(f: Field<T>, default: T): Option<T>
  {
    match f
    case Missing => Some(default)
    case Null => None
    case Present(v) => Some(v)
  }

  /** The projected fields of a stored protein document; `sequence` is the sub-document holding `length`. */
  datatype MongoDoc = MongoDoc(
    id: Field<string>,
    uniprotId: Field<string>,
    entryName: Field<string>,
    organism: Field<string>,
    sequence: Field<Field<int>>,
    ecNumbers: Field<seq<string>>,
    interproIds: Field<seq<string>>,
    isLabelled: Field<bool>)

  /** The row sent to the graph store for one protein. */
  datatype ProteinRecord = ProteinRecord(
    uniprotId: string,
    entryName: Option<string>,
    organism: Option<string>,
    length: Option<int>,
    ecNumbers: Option<seq<string>>,
    isLabelled: bool,
    interproIds: Option<seq<string>>)

  /**
   * What the loop body does with one document: skip it, keep its record, or
   * fail (a stored null `sequence` has no `.get`, which raises).
   */
  datatype Outcome = Skip | Keep(rec: ProteinRecord) | Crash

  /** `doc.get("uniprot_id") or doc.get("_id")`. */
  function DocId(doc: MongoDoc): Option<string>
  {
    if Truthy(Get(doc.uniprotId)) then Get(doc.uniprotId) else Get(doc.id)
  }

  function Normalize(doc: MongoDoc): Outcome
  {
    var id := DocId(doc);
    if !Truthy(id) then Skip
    else if doc.sequence.Null? then Crash
    else
      Keep(ProteinRecord(
        id.value,
        Get(doc.entryName),
        Get(doc.organism),
        if doc.sequence.Present? then Get(doc.sequence.v) else None,
        GetOr(doc.ecNumbers, []),
        doc.isLabelled == Present(true),
        GetOr(doc.interproIds, [])))
  }

  /** The documents' normalisation: a document is skipped only when both ids are falsy, the id prefers uniprot_id, missing lists become [] and is_labelled is a bool defaulting to False. */
  lemma {:induction false} NormalizeFacts(doc: MongoDoc)
    ensures Normalize(doc).Skip? <==> !Truthy(Get(doc.uniprotId)) && !Truthy(Get(doc.id))
    ensures Normalize(doc).Crash? <==> (Truthy(Get(doc.uniprotId)) || Truthy(Get(doc.id))) && doc.sequence.Null?
    ensures Normalize(doc).Keep? ==>
      var r := Normalize(doc).rec;
      && r.uniprotId != ""
      && (Truthy(Get(doc.uniprotId)) ==> r.uniprotId == doc.uniprotId.v)
      && (!Truthy(Get(doc.uniprotId)) ==> doc.id == Present(r.uniprotId))
      && (doc.ecNumbers.Missing? ==> r.ecNumbers == Some([]))
      && (doc.interproIds.Missing? ==> r.interproIds == Some([]))
      && (doc.ecNumbers.Present? ==> r.ecNumbers == Some(doc.ecNumbers.v))
      && (doc.ecNumbers.Null? ==> r.ecNumbers.None?)
      && (r.isLabelled <==> doc.isLabelled == Present(true))
      && (doc.sequence.Missing? ==> r.length.None?)
  {
  }

  /** The records of the documents read before the first failure, and whether one happened. */
  datatype Normalization = Normalization(records: seq<ProteinRecord>, crashed: bool)

  function Normalized(docs: seq<MongoDoc>): Normalization
  {
    if docs == [] then Normalization([], false)
    else
      var p := Normalized(docs[..|docs| - 1]);
      if p.crashed then p
      else
        match Normalize(docs[|docs| - 1])
        case Skip => p
        case Crash => Normalization(p.records, true)
        case Keep(r) => Normalization(p.records + [r], false)
  }

  /** After a failure, the remaining documents change nothing: the script has stopped. */
  lemma {:induction false} CrashPersists(docs: seq<MongoDoc>, i: nat)
    requires i <= |docs|
    requires Normalized(docs[..i]).crashed
    ensures Normalized(docs) == Normalized(docs[..i])
    decreases |docs| - i
  {
    if i < |docs| {
      assert docs[..i + 1][..i] == docs[..i];
      CrashPersists(docs, i + 1);
    } else {
      assert docs[..i] == docs;
    }
  }

  lemma {:induction false} NormalizedStep(docs: seq<MongoDoc>, i: nat)
    requires i < |docs|
    requires !Normalized(docs[..i]).crashed
    ensures var p := Normalized(docs[..i]);
      Normalized(docs[..i + 1]) ==
        match Normalize(docs[i])
        case Skip => p
        case Crash => Normalization(p.records, true)
        case Keep(r) => Normalization(p.records + [r], false)
  {
    assert docs[..i + 1][..i] == docs[..i];
  }

  // ---------------------------------------------------------------------------
  // Batches of 500
  // ---------------------------------------------------------------------------

  const BatchLimit: nat := 500

  /** The reference cut of a record list into batches: full batches of 500, then the non-empty rest. */
  function Chunks<T>(s: seq<T>): seq<seq<T>>
    decreases |s|
  {
    if s == [] then []
    else if |s| <= BatchLimit then [s]
    else [s[..BatchLimit]] + Chunks(s[BatchLimit..])
  }

  /** The batches partition the records in order; each is non-empty and all but the last hold exactly 500. */
  lemma {:induction false} ChunksShape<T>(s: seq<T>)
    ensures Flatten(Chunks(s)) == s
    ensures forall k :: 0 <= k < |Chunks(s)| ==> 0 < |Chunks(s)[k]| <= BatchLimit
    ensures forall k :: 0 <= k < |Chunks(s)| - 1 ==> |Chunks(s)[k]| == BatchLimit
    decreases |s|
  {
    if s == [] {
    } else if |s| <= BatchLimit {
      assert Chunks(s) == [] + [s];
    } else {
      var rest := Chunks(s[BatchLimit..]);
      ChunksShape(s[BatchLimit..]);
      FlattenPrepend(s[..BatchLimit], rest);
      assert s[..BatchLimit] + s[BatchLimit..] == s;
      assert forall k :: 0 < k < |Chunks(s)| ==> Chunks(s)[k] == rest[k - 1];
    }
  }

  /** Appending one batch after whole batches of 500 adds exactly that batch. */
  lemma {:induction false} ChunksAppend<T>(x: seq<T>, b: seq<T>, n: nat)
    requires |x| == n * BatchLimit
    requires 0 < |b| <= BatchLimit
    ensures Chunks(x + b) == Chunks(x) + [b]
    decreases |x|
  {
    if x == [] {
      assert x + b == b;
    } else {
      assert |x| >= BatchLimit;
      assert (x + b)[..BatchLimit] == x[..BatchLimit];
      assert (x + b)[BatchLimit..] == x[BatchLimit..] + b;
      ChunksAppend(x[BatchLimit..], b, n - 1);
      if |x| == BatchLimit {
        assert x[BatchLimit..] == [];
        assert x[..BatchLimit] == x;
      }
    }
  }

  // ---------------------------------------------------------------------------
  // The graph store
  // ---------------------------------------------------------------------------

  /** The properties a Protein node keeps; interpro_ids is not stored on the node. */
  datatype ProteinNode = ProteinNode(
    entryName: Option<string>,
    organism: Option<string>,
    length: Option<int>,
    ecNumbers: Option<seq<string>>,
    isLabelled: bool)

  /** Protein nodes by uniprot_id, Domain nodes by interpro_id, HAS_DOMAIN edges as (uniprot_id, interpro_id). */
  datatype Graph = Graph(proteins: map<string, ProteinNode>, domains: set<string>, hasDomain: set<(string, string)>)

  /** UNWIND of a null list yields no row. */
  function InterproList(r: ProteinRecord): seq<string>
  {
    if r.interproIds.Some? then r.interproIds.value else []
  }

  function NodeOf(r: ProteinRecord): ProteinNode
  {
    ProteinNode(r.entryName, r.organism, r.length, r.ecNumbers, r.isLabelled)
  }

  /** One UNWIND row of import_batch: MERGE the protein and SET its properties, then MERGE each domain and edge. */
  function ImportRecord(g: Graph, r: ProteinRecord): Graph
  {
    var ids := InterproList(r);
    Graph(g.proteins[r.uniprotId := NodeOf(r)],
          g.domains + Elems(ids),
          g.hasDomain + set d | d in ids :: (r.uniprotId, d))
  }

  /** import_batch over a list of records, in order. */
  function ImportRecords(g: Graph, recs: seq<ProteinRecord>): Graph
  {
    if recs == [] then g else ImportRecord(ImportRecords(g, recs[..|recs| - 1]), recs[|recs| - 1])
  }

  /** Importing two batches one after the other is importing their concatenation. */
  lemma {:induction false} ImportRecordsAppend(g: Graph, a: seq<ProteinRecord>, b: seq<ProteinRecord>)
    ensures ImportRecords(g, a + b) == ImportRecords(ImportRecords(g, a), b)
    decreases |b|
  {
    if b == [] {
      assert a + b == a;
    } else {
      var init := b[..|b| - 1];
      ImportRecordsAppend(g, a, init);
      assert (a + b)[..|a + b| - 1] == a + init;
    }
  }

  /** A HAS_DOMAIN edge exists after the import exactly when it existed before or some record lists that domain. */
  lemma {:induction false} ImportedEdges(g: Graph, recs: seq<ProteinRecord>, p: string, d: string)
    ensures (p, d) in ImportRecords(g, recs).hasDomain <==>
      (p, d) in g.hasDomain || exists k :: 0 <= k < |recs| && recs[k].uniprotId == p && d in InterproList(recs[k])
  {
    if recs != [] {
      var init := recs[..|recs| - 1];
      ImportedEdges(g, init, p, d);
      var last := recs[|recs| - 1];
      if (p, d) in ImportRecords(g, recs).hasDomain && (p, d) !in g.hasDomain {
        if (p, d) in ImportRecords(g, init).hasDomain {
          var k :| 0 <= k < |init| && init[k].uniprotId == p && d in InterproList(init[k]);
          assert recs[k] == init[k];
        } else {
          assert last.uniprotId == p && d in InterproList(last);
        }
      }
      if exists k :: 0 <= k < |recs| && recs[k].uniprotId == p && d in InterproList(recs[k]) {
        var k :| 0 <= k < |recs| && recs[k].uniprotId == p && d in InterproList(recs[k]);
        if k < |init| {
          assert init[k] == recs[k];
        }
      }
    }
  }

  /** Each Protein node holds the properties of the last record with its id; nodes of no record are untouched. */
  lemma {:induction false} ImportedNodes(g: Graph, recs: seq<ProteinRecord>, p: string)
    ensures p in ImportRecords(g, recs).proteins <==> p in g.proteins || exists k :: 0 <= k < |recs| && recs[k].uniprotId == p
    ensures forall k :: 0 <= k < |recs| && recs[k].uniprotId == p && (forall j :: k < j < |recs| ==> recs[j].uniprotId != p) ==>
      ImportRecords(g, recs).proteins[p] == NodeOf(recs[k])
    ensures (forall k :: 0 <= k < |recs| ==> recs[k].uniprotId != p) && p in g.proteins ==>
      ImportRecords(g, recs).proteins[p] == g.proteins[p]
  {
    if recs != [] {
      var init := recs[..|recs| - 1];
      ImportedNodes(g, init, p);
      assert forall k :: 0 <= k < |init| ==> init[k] == recs[k];
    }
  }

  // ---------------------------------------------------------------------------
  // domain_count
  // ---------------------------------------------------------------------------

  /** The interpro ids a protein has a HAS_DOMAIN edge to. */
  function DomainsOf(g: Graph, p: string): set<string>
  {
    set e | e in g.hasDomain && e.0 == p :: e.1
  }

  /** `COUNT { (p)-[:HAS_DOMAIN]->() }` for every Protein node. */
  function DomainCounts(g: Graph): map<string, nat>
  {
    map p | p in g.proteins :: |DomainsOf(g, p)|
  }

  /**
   * Imported into a graph with no edges, a protein whose id no other record
   * shares has as many HAS_DOMAIN edges as distinct interpro ids in its
   * record, because MERGE creates each edge once.
   */
  lemma {:induction false} DomainCountDistinct(g: Graph, recs: seq<ProteinRecord>, k: nat)
    requires g.hasDomain == {}
    requires k < |recs|
    requires forall j :: 0 <= j < |recs| && j != k ==> recs[j].uniprotId != recs[k].uniprotId
    ensures recs[k].uniprotId in DomainCounts(ImportRecords(g, recs))
    ensures DomainCounts(ImportRecords(g, recs))[recs[k].uniprotId] == |Elems(InterproList(recs[k]))|
    ensures DomainCounts(ImportRecords(g, recs))[recs[k].uniprotId] == |Distinct(InterproList(recs[k]))|
  {
    var p := recs[k].uniprotId;
    var h := ImportRecords(g, recs);
    ImportedNodes(g, recs, p);
    forall d ensures d in DomainsOf(h, p) <==> d in Elems(InterproList(recs[k])) {
      ImportedEdges(g, recs, p, d);
      if d in DomainsOf(h, p) {
        var e :| e in h.hasDomain && e.0 == p && e.1 == d;
        assert (p, d) == e;
      }
    }
    assert DomainsOf(h, p) == Elems(InterproList(recs[k]));
    DistinctLength(Distinct(InterproList(recs[k])), InterproList(recs[k]));
  }

  // ---------------------------------------------------------------------------
  // The import loop
  // ---------------------------------------------------------------------------

  /**
   * The loop state after `i` documents: no failure yet, the batches sent so
   * far followed by the pending batch are the records read, the batches sent
   * are whole batches of 500, and the store holds exactly what they imported.
   */
  ghost predicate Importing(docs: seq<MongoDoc>, i: nat, batches: seq<seq<ProteinRecord>>, batch: seq<ProteinRecord>, g0: Graph, g: Graph)
  {
    && i <= |docs|
    && !Normalized(docs[..i]).crashed
    && Flatten(batches) + batch == Normalized(docs[..i]).records
    && batches == Chunks(Flatten(batches))
    && |Flatten(batches)| == |batches| * BatchLimit
    && |batch| <= BatchLimit
    && g == ImportRecords(g0, Flatten(batches))
  }

  /** A skipped document leaves the state as it is; a kept one is appended to the pending batch. */
  lemma {:induction false} ImportingStep(docs: seq<MongoDoc>, i: nat, batches: seq<seq<ProteinRecord>>, batch: seq<ProteinRecord>, g0: Graph, g: Graph)
    requires Importing(docs, i, batches, batch, g0, g)
    requires i < |docs| && |batch| < BatchLimit
    ensures Normalize(docs[i]).Skip? ==> Importing(docs, i + 1, batches, batch, g0, g)
    ensures Normalize(docs[i]).Keep? ==> Importing(docs, i + 1, batches, batch + [Normalize(docs[i]).rec], g0, g)
    ensures Normalize(docs[i]).Crash? ==>
      && Normalized(docs).crashed
      && batches == Chunks(Flatten(batches))
      && |Flatten(batches)| == |batches| * BatchLimit
      && Flatten(batches) <= Normalized(docs).records
      && |Normalized(docs).records| - |Flatten(batches)| < BatchLimit
  {
    NormalizedStep(docs, i);
    var outcome := Normalize(docs[i]);
    if outcome.Keep? {
      assert Flatten(batches) + (batch + [outcome.rec]) == (Flatten(batches) + batch) + [outcome.rec];
    }
    if outcome.Crash? {
      CrashPersists(docs, i + 1);
      assert Normalized(docs).records == Flatten(batches) + batch;
    }
  }

  /** Sending a full batch of 500 keeps the state, with an empty pending batch. */
  lemma {:induction false} ImportingFlush(docs: seq<MongoDoc>, i: nat, batches: seq<seq<ProteinRecord>>, batch: seq<ProteinRecord>, g0: Graph, g: Graph)
    requires Importing(docs, i, batches, batch, g0, g)
    requires |batch| == BatchLimit
    ensures Importing(docs, i, batches + [batch], [], g0, ImportRecords(g, batch))
  {
    ChunksAppend(Flatten(batches), batch, |batches|);
    ImportRecordsAppend(g0, Flatten(batches), batch);
    FlattenAppend(batches, batch);
    assert Flatten(batches + [batch]) + [] == Flatten(batches + [batch]);
  }

  /** At the end, sending the remainder (if any) leaves exactly the reference batches of all records. */
  lemma {:induction false} ImportingDone(docs: seq<MongoDoc>, batches: seq<seq<ProteinRecord>>, batch: seq<ProteinRecord>, g0: Graph, g: Graph)
    requires Importing(docs, |docs|, batches, batch, g0, g)
    ensures !Normalized(docs).crashed
    ensures batch == [] ==> batches == Chunks(Normalized(docs).records)
    ensures batch != [] ==>
      && batches + [batch] == Chunks(Normalized(docs).records)
      && ImportRecords(g, batch) == ImportRecords(g0, Flatten(batches + [batch]))
  {
    assert docs[..|docs|] == docs;
    if batch == [] {
      assert Flatten(batches) + batch == Flatten(batches);
    } else {
      ChunksAppend(Flatten(batches), batch, |batches|);
      ImportRecordsAppend(g0, Flatten(batches), batch);
      FlattenAppend(batches, batch);
    }
  }

  /**
   * import_proteins_and_domains: reads the documents in cursor order, keeps a
   * batch that is sent to the store (import_batch) when it reaches 500
   * records, and sends the non-empty remainder at the end. A document that
   * makes the mapping raise stops the loop: the batches already sent stay
   * imported and the pending batch is lost.
   */
  method ImportProteinsAndDomains(docs: seq<MongoDoc>, g0: Graph) returns (batches: seq<seq<ProteinRecord>>, crashed: bool, g: Graph)
    ensures crashed == Normalized(docs).crashed
    ensures !crashed ==> batches == Chunks(Normalized(docs).records)
    ensures crashed ==>
      && batches == Chunks(Flatten(batches))
      && |Flatten(batches)| == |batches| * BatchLimit
      && Flatten(batches) <= Normalized(docs).records
      && |Normalized(docs).records| - |Flatten(batches)| < BatchLimit
    ensures g == ImportRecords(g0, Flatten(batches))
  {
    batches := [];
    var batch: seq<ProteinRecord> := [];
    g := g0;
    crashed := false;
    var i := 0;
    assert docs[..0] == [];
    while i < |docs|
      invariant Importing(docs, i, batches, batch, g0, g)
      invariant |batch| < BatchLimit
    {
      ImportingStep(docs, i, batches, batch, g0, g);
      var outcome := Normalize(docs[i]);
      if outcome.Crash? {
        crashed := true;
        return;
      }
      i := i + 1;
      if outcome.Keep? {
        batch := batch + [outcome.rec];
        if |batch| >= BatchLimit {
          ImportingFlush(docs, i, batches, batch, g0, g);
          g := ImportRecords(g, batch);
          batches := batches + [batch];
          batch := [];
        }
      }
    }
    ImportingDone(docs, batches, batch, g0, g);
    if batch != [] {
      g := ImportRecords(g, batch);
      batches := batches + [batch];
    }
  }
}
