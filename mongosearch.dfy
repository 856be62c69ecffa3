/**
 * The protein collection's combined search (a disjunctive filter built from
 * optional criteria) and the counts derived in get_statistics. Matching is
 * evaluated against the documents the loaders insert.
 */
module MongoSearch {
  import opened Common
  import opened Ingest

  // ---------------------------------------------------------------------------
  // Filters
  // ---------------------------------------------------------------------------

  /** The document fields the search names. */
  datatype FieldName = UniprotIdField | EntryNameField | ProteinNameField | ProteinNamesField

  /** The key of each field in the filter document. */
  function Key(f: FieldName): string
  {
    match f
    case UniprotIdField => "uniprot_id"
    case EntryNameField => "entry_name"
    case ProteinNameField => "protein_name"
    case ProteinNamesField => "protein_names"
  }

  datatype Condition =
    | FieldEquals(field: FieldName, value: string)   // {field: value}
    | ArrayContains(field: FieldName, value: string) // {field: {"$in": [value]}}
    | TextSearch(terms: string)                    // {"$text": {"$search": terms}}

  datatype Filter = Single(c: Condition) | AnyOf(cs: seq<Condition>)

  /** What combined_search does: return [] without a query, or run `find` with a filter. */
  datatype Search = NoCriteria | Find(filter: Filter)

  /** The field the name criterion queries, as written. */
  const NameFieldAsWritten: FieldName := ProteinNameField
  /** The field the loaders fill with the split protein names. */
  const NameField: FieldName := ProteinNamesField

  function OrEmpty(s: Option<string>): string
  {
    if s.Some? then s.value else ""
  }

  /** The condition of one criterion: none when it is not truthy. */
  function When(criterion: Option<string>, c: Condition): seq<Condition>
  {
    if Truthy(criterion) then [c] else []
  }

  /** The conditions for the truthy criteria, in the order identifier, entry name, name, description. */
  function Conditions(nameField: FieldName, identifier: Option<string>, entryName: Option<string>,
                      name: Option<string>, description: Option<string>): seq<Condition>
  {
    When(identifier, FieldEquals(UniprotIdField, OrEmpty(identifier)))
    + When(entryName, FieldEquals(EntryNameField, OrEmpty(entryName)))
    + When(name, ArrayContains(nameField, OrEmpty(name)))
    + When(description, TextSearch(OrEmpty(description)))
  }

  function TruthyCount(identifier: Option<string>, entryName: Option<string>, name: Option<string>, description: Option<string>): nat
  {
    (if Truthy(identifier) then 1 else 0) + (if Truthy(entryName) then 1 else 0)
    + (if Truthy(name) then 1 else 0) + (if Truthy(description) then 1 else 0)
  }

  /** One condition per truthy criterion, so at most four; the identifier's, when present, comes first. */
  lemma {:induction false} ConditionsCount(nameField: FieldName, identifier: Option<string>, entryName: Option<string>,
                                           name: Option<string>, description: Option<string>)
    ensures |Conditions(nameField, identifier, entryName, name, description)| == TruthyCount(identifier, entryName, name, description) <= 4
    ensures Truthy(identifier) ==> Conditions(nameField, identifier, entryName, name, description)[0] == FieldEquals(UniprotIdField, identifier.value)
    ensures Truthy(description) ==>
      var cs := Conditions(nameField, identifier, entryName, name, description);
      cs[|cs| - 1] == TextSearch(description.value)
  {
  }

  /** The filter for a non-empty condition list: the condition itself, or `$or` of all of them. */
  function FilterOf(cs: seq<Condition>): Filter
    requires cs != []
  {
    if |cs| > 1 then AnyOf(cs) else Single(cs[0])
  }

  /** `if criterion: query_conditions.append(c)`. */
  method AppendIfTruthy(conditions: seq<Condition>, criterion: Option<string>, c: Condition) returns (r: seq<Condition>)
    ensures r == conditions + When(criterion, c)
  {
    r := conditions;
    if criterion.Some? && criterion.value != "" {
      r := r + [c];
    }
  }

  /** The condition-building steps of combined_search for a given name field. */
  method SearchWith(nameField: FieldName, identifier: Option<string>, entryName: Option<string>,
                    name: Option<string>, description: Option<string>) returns (s: Search)
    ensures s.NoCriteria? <==> TruthyCount(identifier, entryName, name, description) == 0
    ensures s.Find? ==> s.filter == FilterOf(Conditions(nameField, identifier, entryName, name, description))
  {
    var conditions: seq<Condition> := [];
    conditions := AppendIfTruthy(conditions, identifier, FieldEquals(UniprotIdField, OrEmpty(identifier)));
    conditions := AppendIfTruthy(conditions, entryName, FieldEquals(EntryNameField, OrEmpty(entryName)));
    conditions := AppendIfTruthy(conditions, name, ArrayContains(nameField, OrEmpty(name)));
    conditions := AppendIfTruthy(conditions, description, TextSearch(OrEmpty(description)));
    ConditionsCount(nameField, identifier, entryName, name, description);
    if conditions == [] {
      return NoCriteria;
    }
    s := Find(if |conditions| > 1 then AnyOf(conditions) else Single(conditions[0]));
  }

  /** combined_search as written. */
  method CombinedSearch(identifier: Option<string>, entryName: Option<string>, name: Option<string>, description: Option<string>)
    returns (s: Search)
    ensures s.NoCriteria? <==> TruthyCount(identifier, entryName, name, description) == 0
    ensures s.Find? ==> s.filter == FilterOf(Conditions(NameFieldAsWritten, identifier, entryName, name, description))
  {
    s := SearchWith(NameFieldAsWritten, identifier, entryName, name, description);
  }

  /** combined_search with the name criterion on the loaders' `protein_names` field. */
  method CombinedSearchFixed(identifier: Option<string>, entryName: Option<string>, name: Option<string>, description: Option<string>)
    returns (s: Search)
    ensures s.NoCriteria? <==> TruthyCount(identifier, entryName, name, description) == 0
    ensures s.Find? ==> s.filter == FilterOf(Conditions(NameField, identifier, entryName, name, description))
  {
    s := SearchWith(NameField, identifier, entryName, name, description);
  }

  // ---------------------------------------------------------------------------
  // Matching against loaded documents
  // ---------------------------------------------------------------------------

  /**
   * Whether a loaded document satisfies a condition. Text search belongs to
   * the collection's text index; the ids it returns are given as `textHits`.
   * A field the document does not have matches nothing.
   */
  predicate Matches(d: Document, c: Condition, textHits: set<string>)
  {
    match c
    case FieldEquals(f, v) => (f == UniprotIdField && d.uniprotId == v) || (f == EntryNameField && d.entryName == Text(v))
    case ArrayContains(f, v) => f == NameField && v in d.proteinNames
    case TextSearch(_) => d.id in textHits
  }

  predicate FilterMatches(d: Document, f: Filter, textHits: set<string>)
  {
    match f
    case Single(c) => Matches(d, c, textHits)
    case AnyOf(cs) => exists k :: 0 <= k < |cs| && Matches(d, cs[k], textHits)
  }

  /**
   * The fields with an ordinary index (both loaders index uniprot_id,
   * entry_name, interpro_ids and ec_numbers; protein_names has only the text
   * index, which serves no `$in`, and protein_name has none).
   */
  predicate IndexedField(f: FieldName)
  {
    f == UniprotIdField || f == EntryNameField
  }

  /** Whether an index can serve the condition inside a `$or`. */
  predicate Indexed(c: Condition)
  {
    match c
    case FieldEquals(f, _) => IndexedField(f)
    case ArrayContains(f, _) => IndexedField(f)
    case TextSearch(_) => true
  }

  /**
   * MongoDB refuses a `$or` holding `$text` unless every clause can use an
   * index: `find` raises OperationFailure, which combined_search catches to return [].
   */
  predicate Refused(f: Filter)
  {
    f.AnyOf? && HasText(f.cs) && HasUnindexed(f.cs)
  }

  predicate HasText(cs: seq<Condition>)
  {
    exists k :: 0 <= k < |cs| && cs[k].TextSearch?
  }

  predicate HasUnindexed(cs: seq<Condition>)
  {
    exists k :: 0 <= k < |cs| && !Indexed(cs[k])
  }

  lemma {:induction false} HasConcat(a: seq<Condition>, b: seq<Condition>)
    ensures HasText(a + b) <==> HasText(a) || HasText(b)
    ensures HasUnindexed(a + b) <==> HasUnindexed(a) || HasUnindexed(b)
  {
    var ab := a + b;
    assert forall k :: 0 <= k < |a| ==> ab[k] == a[k];
    assert forall k :: 0 <= k < |b| ==> ab[|a| + k] == b[k];
    assert forall k :: |a| <= k < |ab| ==> ab[k] == b[k - |a|];
  }

  /** Whether combined_search returns the document: a filter was built, the server accepted it, and it matches. */
  predicate Found(d: Document, s: Search, textHits: set<string>)
  {
    s.Find? && !Refused(s.filter) && FilterMatches(d, s.filter, textHits)
  }

  /** The built conditions hold a text search exactly for a description, and an unindexed clause exactly for a name. */
  lemma {:induction false} ConditionsKinds(nameField: FieldName, identifier: Option<string>, entryName: Option<string>,
                                           name: Option<string>, description: Option<string>)
    requires !IndexedField(nameField)
    ensures HasText(Conditions(nameField, identifier, entryName, name, description)) <==> Truthy(description)
    ensures HasUnindexed(Conditions(nameField, identifier, entryName, name, description)) <==> Truthy(name)
  {
    var w1 := When(identifier, FieldEquals(UniprotIdField, OrEmpty(identifier)));
    var w2 := When(entryName, FieldEquals(EntryNameField, OrEmpty(entryName)));
    var w3 := When(name, ArrayContains(nameField, OrEmpty(name)));
    var w4 := When(description, TextSearch(OrEmpty(description)));
    assert Conditions(nameField, identifier, entryName, name, description) == w1 + w2 + w3 + w4;
    HasConcat(w1 + w2 + w3, w4);
    HasConcat(w1 + w2, w3);
    HasConcat(w1, w2);
    HasWhen(identifier, FieldEquals(UniprotIdField, OrEmpty(identifier)));
    HasWhen(entryName, FieldEquals(EntryNameField, OrEmpty(entryName)));
    HasWhen(name, ArrayContains(nameField, OrEmpty(name)));
    HasWhen(description, TextSearch(OrEmpty(description)));
  }

  lemma {:induction false} HasWhen(criterion: Option<string>, c: Condition)
    ensures HasText(When(criterion, c)) <==> Truthy(criterion) && c.TextSearch?
    ensures HasUnindexed(When(criterion, c)) <==> Truthy(criterion) && !Indexed(c)
  {
    if Truthy(criterion) {
      assert When(criterion, c)[0] == c;
    }
  }

  /** The built filter is refused exactly when both a name and a description are given, whatever field the name queries. */
  lemma {:induction false} ConditionsRefused(nameField: FieldName, identifier: Option<string>, entryName: Option<string>,
                                             name: Option<string>, description: Option<string>)
    requires TruthyCount(identifier, entryName, name, description) > 0
    requires !IndexedField(nameField)
    ensures var cs := Conditions(nameField, identifier, entryName, name, description);
      cs != [] && (Refused(FilterOf(cs)) <==> Truthy(name) && Truthy(description))
  {
    ConditionsCount(nameField, identifier, entryName, name, description);
    ConditionsKinds(nameField, identifier, entryName, name, description);
  }

  /** The criterion-by-criterion reading of the combined search: a document is found when some truthy criterion holds. */
  predicate AnyCriterion(d: Document, identifier: Option<string>, entryName: Option<string>, name: Option<string>,
                         description: Option<string>, textHits: set<string>)
  {
    || (Truthy(identifier) && d.uniprotId == identifier.value)
    || (Truthy(entryName) && d.entryName == Text(entryName.value))
    || (Truthy(name) && name.value in d.proteinNames)
    || (Truthy(description) && d.id in textHits)
  }

  lemma {:induction false} FilterOfMatches(d: Document, cs: seq<Condition>, textHits: set<string>)
    requires cs != []
    ensures FilterMatches(d, FilterOf(cs), textHits) <==> exists k :: 0 <= k < |cs| && Matches(d, cs[k], textHits)
  {
  }

  predicate SomeMatch(d: Document, cs: seq<Condition>, textHits: set<string>)
  {
    exists k :: 0 <= k < |cs| && Matches(d, cs[k], textHits)
  }

  lemma {:induction false} SomeMatchConcat(d: Document, a: seq<Condition>, b: seq<Condition>, textHits: set<string>)
    ensures SomeMatch(d, a + b, textHits) <==> SomeMatch(d, a, textHits) || SomeMatch(d, b, textHits)
  {
    if SomeMatch(d, a + b, textHits) {
      var k :| 0 <= k < |a + b| && Matches(d, (a + b)[k], textHits);
      if k >= |a| {
        assert b[k - |a|] == (a + b)[k];
      }
    }
    if SomeMatch(d, b, textHits) {
      var k :| 0 <= k < |b| && Matches(d, b[k], textHits);
      assert (a + b)[|a| + k] == b[k];
    }
    if SomeMatch(d, a, textHits) {
      var k :| 0 <= k < |a| && Matches(d, a[k], textHits);
      assert (a + b)[k] == a[k];
    }
  }

  lemma {:induction false} SomeMatchWhen(d: Document, criterion: Option<string>, c: Condition, textHits: set<string>)
    ensures SomeMatch(d, When(criterion, c), textHits) <==> Truthy(criterion) && Matches(d, c, textHits)
  {
    if Truthy(criterion) {
      assert When(criterion, c)[0] == c;
    }
  }

  /** Some corrected condition holds for a document exactly when one of the truthy criteria does. */
  lemma {:induction false} ConditionsMatch(d: Document, identifier: Option<string>, entryName: Option<string>,
                                           name: Option<string>, description: Option<string>, textHits: set<string>)
    ensures SomeMatch(d, Conditions(NameField, identifier, entryName, name, description), textHits)
      <==> AnyCriterion(d, identifier, entryName, name, description, textHits)
  {
    var w1 := When(identifier, FieldEquals(UniprotIdField, OrEmpty(identifier)));
    var w2 := When(entryName, FieldEquals(EntryNameField, OrEmpty(entryName)));
    var w3 := When(name, ArrayContains(NameField, OrEmpty(name)));
    var w4 := When(description, TextSearch(OrEmpty(description)));
    assert Conditions(NameField, identifier, entryName, name, description) == w1 + w2 + w3 + w4;
    SomeMatchConcat(d, w1 + w2 + w3, w4, textHits);
    SomeMatchConcat(d, w1 + w2, w3, textHits);
    SomeMatchConcat(d, w1, w2, textHits);
    SomeMatchWhen(d, identifier, FieldEquals(UniprotIdField, OrEmpty(identifier)), textHits);
    SomeMatchWhen(d, entryName, FieldEquals(EntryNameField, OrEmpty(entryName)), textHits);
    SomeMatchWhen(d, name, ArrayContains(NameField, OrEmpty(name)), textHits);
    SomeMatchWhen(d, description, TextSearch(OrEmpty(description)), textHits);
  }

  /**
   * Corrected: a document is found exactly when one of the truthy criteria
   * holds for it, except that a name together with a description is refused
   * by the server and returns nothing.
   */
  lemma {:induction false} FixedSearchFinds(d: Document, identifier: Option<string>, entryName: Option<string>,
                                            name: Option<string>, description: Option<string>, textHits: set<string>, s: Search)
    requires s.NoCriteria? <==> TruthyCount(identifier, entryName, name, description) == 0
    requires s.Find? ==> s.filter == FilterOf(Conditions(NameField, identifier, entryName, name, description))
    ensures Found(d, s, textHits) <==>
      AnyCriterion(d, identifier, entryName, name, description, textHits) && !(Truthy(name) && Truthy(description))
  {
    var cs := Conditions(NameField, identifier, entryName, name, description);
    ConditionsMatch(d, identifier, entryName, name, description, textHits);
    ConditionsCount(NameField, identifier, entryName, name, description);
    if s.Find? {
      ConditionsRefused(NameField, identifier, entryName, name, description);
      FilterOfMatches(d, cs, textHits);
    } else {
      assert cs == [];
    }
  }

  /** As written, the name condition queries a field no loaded document has, so it matches nothing. */
  lemma {:induction false} NameConditionMatchesNothing(d: Document, name: string, textHits: set<string>)
    ensures !Matches(d, ArrayContains(NameFieldAsWritten, name), textHits)
  {
  }

  /** A name-only search: as written it finds no document, corrected it finds every document listing the name. */
  lemma {:induction false} NameOnlySearch(d: Document, name: string, textHits: set<string>, s: Search, t: Search)
    requires name != ""
    requires s.Find? && s.filter == FilterOf(Conditions(NameFieldAsWritten, None, None, Some(name), None))
    requires t.Find? && t.filter == FilterOf(Conditions(NameField, None, None, Some(name), None))
    ensures !Found(d, s, textHits)
    ensures Found(d, t, textHits) <==> name in d.proteinNames
  {
    assert Conditions(NameFieldAsWritten, None, None, Some(name), None) == [ArrayContains(NameFieldAsWritten, name)];
    assert Conditions(NameField, None, None, Some(name), None) == [ArrayContains(NameField, name)];
  }

  // ---------------------------------------------------------------------------
  // get_statistics
  // ---------------------------------------------------------------------------

  /** `count_documents({"is_labelled": True})`. */
  function CountLabelled(docs: seq<Document>): nat
  {
    if docs == [] then 0 else CountLabelled(docs[..|docs| - 1]) + (if docs[|docs| - 1].isLabelled then 1 else 0)
  }

  function CountUnlabelled(docs: seq<Document>): nat
  {
    if docs == [] then 0 else CountUnlabelled(docs[..|docs| - 1]) + (if !docs[|docs| - 1].isLabelled then 1 else 0)
  }

  /** `count_documents({"interpro_ids": {"$exists": True, "$ne": []}})`. */
  function CountWithDomains(docs: seq<Document>): nat
  {
    if docs == [] then 0 else CountWithDomains(docs[..|docs| - 1]) + (if docs[|docs| - 1].interproIds != [] then 1 else 0)
  }

  function CountWithoutDomains(docs: seq<Document>): nat
  {
    if docs == [] then 0 else CountWithoutDomains(docs[..|docs| - 1]) + (if docs[|docs| - 1].interproIds == [] then 1 else 0)
  }

  /** The documents without EC numbers. */
  function CountWithoutEc(docs: seq<Document>): nat
  {
    if docs == [] then 0 else CountWithoutEc(docs[..|docs| - 1]) + (if docs[|docs| - 1].ecNumbers == [] then 1 else 0)
  }

  datatype Statistics = Statistics(total: int, labeled: int, unlabeled: int, withDomains: int, withoutDomains: int)

  /** The derived counts, by subtraction from the total. */
  function GetStatistics(docs: seq<Document>): (s: Statistics)
  {
    var total := |docs|;
    var labeled := CountLabelled(docs);
    var withDomains := CountWithDomains(docs);
    Statistics(total, labeled, total - labeled, withDomains, total - withDomains)
  }

  lemma {:induction false} CountsPartition(docs: seq<Document>)
    ensures CountLabelled(docs) + CountUnlabelled(docs) == |docs|
    ensures CountWithDomains(docs) + CountWithoutDomains(docs) == |docs|
  {
    if docs != [] {
      CountsPartition(docs[..|docs| - 1]);
    }
  }

  /**
   * The subtractions count what they name: the unlabelled documents and the
   * documents without domains; neither is negative.
   */
  lemma {:induction false} StatisticsCount(docs: seq<Document>)
    ensures GetStatistics(docs).unlabeled == CountUnlabelled(docs) >= 0
    ensures GetStatistics(docs).withoutDomains == CountWithoutDomains(docs) >= 0
    ensures GetStatistics(docs).labeled + GetStatistics(docs).unlabeled == GetStatistics(docs).total
  {
    CountsPartition(docs);
  }

  /** On loaded documents a document is labelled exactly when it has EC numbers, so unlabelled = without EC numbers. */
  lemma {:induction false} UnlabelledMeansNoEc(docs: seq<Document>)
    requires forall k :: 0 <= k < |docs| ==> (docs[k].isLabelled <==> docs[k].ecNumbers != [])
    ensures GetStatistics(docs).unlabeled == CountWithoutEc(docs)
  {
    StatisticsCount(docs);
    UnlabelledEc(docs);
  }

  lemma {:induction false} UnlabelledEc(docs: seq<Document>)
    requires forall k :: 0 <= k < |docs| ==> (docs[k].isLabelled <==> docs[k].ecNumbers != [])
    ensures CountUnlabelled(docs) == CountWithoutEc(docs)
  {
    if docs != [] {
      UnlabelledEc(docs[..|docs| - 1]);
    }
  }

  /** For the documents a loader builds from a file, the unlabelled count is the count of documents without EC numbers. */
  lemma {:induction false} LoadedUnlabelledMeansNoEc(rows: seq<Row>, loader: Loader)
    ensures GetStatistics(Documents(rows, loader)).unlabeled == CountWithoutEc(Documents(rows, loader))
  {
    DocumentsLabelled(rows, loader);
    UnlabelledMeansNoEc(Documents(rows, loader));
  }
}
