# Protein graph pipeline — a Dafny model

This project models the data pipeline of a protein-annotation system for mouse UniProt entries, and proves properties of that model. The pipeline has five stages:

1. It loads a UniProt TSV export into a document store, one document per entry.
2. It copies the documents into a property graph: `Protein` and `Domain` nodes, and `HAS_DOMAIN` edges.
3. It fills the `shared_domains` / `union_domains` properties of the `SIMILAR` edges between proteins. A similarity algorithm creates those edges.
4. It analyses the communities that label propagation finds among the proteins. From them it infers EC numbers, the enzyme labels, for the unlabelled members.
5. It serves a neighbourhood export for visualisation, a combined search, and collection statistics.

Modules, one per stage of the system:

| module | file | what it models |
|---|---|---|
| `Common` | common.dfy | shared definitions: `Option`, Python truthiness of optional strings, duplicate-free lists, flattening, sums, the ordering of strings by character code, sorted insertion |
| `Ingest` | ingest.dfy | `split_semicolon_field` and `load_tsv_to_mongo` of both loaders. The application's loader buffers documents and flushes them every 5000; the backend's makes one bulk insert. |
| `GraphImport` | graph.dfy | `import_proteins_and_domains` / `import_batch` of both graph builders, in batches of 500; the per-protein `domain_count` |
| `EdgeStats` | edges.dfy | the closed-form computation of shared/union domains from the Jaccard weight, with its parallel pass and its sequential completion pass; the set-based computation, directed and undirected, and its report |
| `Communities` | communities.dfy | `analyze_communities`: the per-community composition and the global summary |
| `LabelInference` | labels.dfy | `predict_missing_labels`, `compare_prediction_methods`, `write_majority_vote`, `update_ec_numbers_weighted`, `get_community_ec_numbers`, `modify_ec_numbers_per_community`, `update_ec_numbers_from_communities` |
| `Visualization` | visualization.dfy | `get_protein_neighborhood` and `export_neighborhood_for_visualization` |
| `MongoSearch` | mongosearch.dfy | `combined_search` and `get_statistics` |

Data that never changes in place is modelled with datatypes and functions:
- the rows of the TSV file;
- the stored documents;
- the graph as maps and sets;
- the community records.

The loops of the source are modelled as methods, each proved against a reference function. These are the loaders, the graph import, the community analysis and the inference rules, the export and the search.

Outside effects become parameters:
- which `insert_many` calls raise is a set of call indices;
- which documents the text index matches is a set of document ids;
- the answer of a graph query is an input record;
- the community rows are the grouped members.

The write queries of the inference rules are functions from the list of protein nodes to the new list. Only `ec_numbers_calculated` may change.

## Model

| member | source | states |
|---|---|---|
| Ingest.SplitSemicolonField | app/initialization_scripts/load_mongo.py:20-31 | definition: None and NaN give `[]`; any other value is split on `;`, each segment stripped, blank segments dropped, order kept (its properties follow) |
| Ingest.SplitJoin | app/initialization_scripts/load_mongo.py:31 | splitting on `;` loses nothing: joining the segments back with `;` gives the input, and no segment contains `;` |
| Ingest.SplitOfJoin | app/initialization_scripts/load_mongo.py:31 | splitting the `;`-join of segments without `;` gives those segments back |
| Ingest.StripShape | app/initialization_scripts/load_mongo.py:31 | `strip()` leaves no white space at either end and adds no character |
| Ingest.SplitFieldTokens | app/initialization_scripts/load_mongo.py:20-31 | None and NaN give no token; every token is stripped and not empty |
| Ingest.SplitFieldConcat | backend/initialization_scripts/load_mongo.py:19-30 | the tokens of `a;b` are the tokens of `a` followed by those of `b` |
| Ingest.BlankSegmentNoToken | app/initialization_scripts/load_mongo.py:31 | a blank field yields no token |
| Ingest.SplitFieldIdempotent | backend/initialization_scripts/load_mongo.py:19-30 | re-splitting the `;`-join of a field's tokens gives the same tokens |
| Ingest.MakeDocument | app/initialization_scripts/load_mongo.py:54-78 | definition: no document for a row whose Entry is not a string; otherwise `_id` and `uniprot_id` are the Entry, the InterPro, EC and protein-name fields are split, the sequence is its text with that text's length, and `is_labelled` is a non-empty EC list. The backend loader differs only in `""` for a NaN sequence. |
| Ingest.MakeDocumentFacts | app/initialization_scripts/load_mongo.py:54-78 | a row is kept exactly when its Entry is a string. The document's `_id` and `uniprot_id` are the Entry. `is_labelled` holds exactly when the split EC list is not empty. The length is the length of the sequence text, which is 0 for a NaN sequence in the backend loader. |
| Ingest.DocumentsCount | app/initialization_scripts/load_mongo.py:53-56 | the documents built are exactly one per row whose Entry is a string |
| Ingest.DocumentsLabelled | backend/initialization_scripts/load_mongo.py:57-72 | every loaded document is labelled exactly when it has EC numbers |
| Ingest.FlushBatch | app/initialization_scripts/load_mongo.py:83-90 | one `insert_many` call is logged. Only a successful call adds the batch to the total and empties the buffer; a failed one keeps the buffer. |
| Ingest.Feed | app/initialization_scripts/load_mongo.py:80-90 | definition: the reference schedule. Each document is appended to the buffer; a buffer of 5000 is flushed, and emptied only when the call succeeds. |
| Ingest.Schedule | app/initialization_scripts/load_mongo.py:80-98 | definition: the in-loop flushes, then one final call for a non-empty buffer |
| Ingest.ScheduleOnTime | app/initialization_scripts/load_mongo.py:80-98 | Each call of the schedule is made on time:<br>• a flush from an empty buffer sends exactly 5000 documents;<br>• the flush after a failed flush sends that flush's documents plus exactly one more;<br>• the final call sends fewer than 5000 documents, or exactly those of a failed flush just before it.<br>Each outcome is the oracle's, and only a last call made for a non-empty buffer is final. |
| Ingest.LoadTsvToMongo | app/initialization_scripts/load_mongo.py:48-98 | The calls made are exactly the reference schedule of the file's documents. After the load:<br>• the inserted documents are a prefix of the file's documents, and all of them exactly when the last call succeeded;<br>• a failed call's documents are sent again by the next call;<br>• the returned total counts the inserted documents. |
| Ingest.LoadBackend | backend/initialization_scripts/load_mongo.py:44-85 | nothing is inserted exactly when no row has a string Entry; otherwise one bulk insert of all the documents, in row order |
| GraphImport.Normalize | app/initialization_scripts/build_graph.py:61-81 | definition: a document without a truthy id is skipped, a null `sequence` raises, and otherwise the record takes the properties with the source's defaults |
| GraphImport.NormalizeFacts | app/initialization_scripts/build_graph.py:61-81 | a document is skipped exactly when `uniprot_id` and `_id` are both falsy; the id prefers `uniprot_id`; missing lists become `[]` but stored nulls stay null; `is_labelled` is the stored `True`; a stored null `sequence` raises |
| GraphImport.CrashPersists | app/initialization_scripts/build_graph.py:61-68 | once a document raises, later documents change nothing |
| GraphImport.Chunks | app/initialization_scripts/build_graph.py:57-88 | definition: the reference cut into batches, full batches of 500 and then the non-empty rest |
| GraphImport.ChunksShape | app/initialization_scripts/build_graph.py:58-88 | the batches partition the records in order; each is non-empty and holds at most 500, and all but the last exactly 500 |
| GraphImport.ImportRecord | app/initialization_scripts/build_graph.py:96-108 | definition: one UNWIND row: MERGE and SET the protein, then MERGE each listed domain and its `HAS_DOMAIN` edge |
| GraphImport.ImportRecordsAppend | app/initialization_scripts/build_graph.py:91-110 | importing two batches one after the other equals importing their concatenation |
| GraphImport.ImportedEdges | app/initialization_scripts/build_graph.py:105-108 | an edge `(p)-[:HAS_DOMAIN]->(d)` exists after the import exactly when it existed before or some record of `p` lists `d` |
| GraphImport.ImportedNodes | app/initialization_scripts/build_graph.py:98-103 | a protein node exists after the import exactly when it existed or some record has its id. It carries the properties of the last such record. Nodes of no record are untouched. |
| GraphImport.DomainCountDistinct | app/initialization_scripts/build_graph.py:251 | into a graph without edges, a protein whose id no other record shares gets `domain_count` equal to the number of distinct ids in its InterPro list |
| GraphImport.ImportProteinsAndDomains | backend/initialization_scripts/build_graph.py:56-87 | Without a failure, the batches sent are exactly the reference cut of all normalised records. After a failure:<br>• the batches sent are whole batches of 500;<br>• they are a prefix of the records;<br>• fewer than 500 records are lost.<br>The graph is the import of everything sent. |
| EdgeStats.MathStats | app/initialization_scripts/build_graph.py:304-317 | definition: shared = round(J·(A+B)/(1+J)) with halves rounded up, and union = (A+B) − shared |
| EdgeStats.MathStatsRange | app/initialization_scripts/build_graph.py:311-317 | for a weight in [0, 1], both counts lie between 0 and A + B |
| EdgeStats.MathStatsRecovers | app/initialization_scripts/build_graph.py:311-317 | Two sets of sizes A and B that share s domains have Jaccard weight s/(A+B−s). For that weight the formula gives back shared = s and union = A+B−s. |
| EdgeStats.ParallelPass | app/initialization_scripts/build_graph.py:300-323 | every edge of a committed batch gets the closed-form values; the edges of failed batches keep theirs |
| EdgeStats.SequentialPass | app/initialization_scripts/build_graph.py:340-357 | exactly the edges whose `shared_domains` is null get the closed-form values; the others keep theirs |
| EdgeStats.SequentialPassIdempotent | app/initialization_scripts/build_graph.py:342-357 | the completion pass touches only edges without `shared_domains`; such an edge gets them exactly when both proteins have a `domain_count`, so every edge has them afterwards when every protein has one; a second pass changes nothing |
| EdgeStats.PassesComplete | app/initialization_scripts/build_graph.py:301-362 | whatever subset of edges the parallel pass commits, the completion pass after it gives the result of computing every edge once, including proteins whose `domain_count` is missing |
| EdgeStats.SetStats | app/initialization_scripts/build_graph.py:266-279 | definition: no update when either protein has no domain; otherwise the sizes of the intersection and the union of the two domain sets |
| EdgeStats.SetStatsBounds | app/initialization_scripts/build_graph.py:267-279 | The edge is updated exactly when both proteins have a domain. Then:<br>• the intersection is at most the smaller domain set;<br>• the union is at least each domain set;<br>• shared + union = \|D1\| + \|D2\|. |
| EdgeStats.SetStatsSymmetric | backend/initialization_scripts/build_graph.py:181-193 | the set computation does not depend on the order of the two proteins |
| EdgeStats.UndirectedAgrees | backend/initialization_scripts/build_graph.py:181 | matching the edge in both directions writes the same values as the directed match |
| EdgeStats.MathAgreesWithSets | app/initialization_scripts/build_graph.py:292-297 | with `domain_count` from the graph and the exact Jaccard weight of the two domain sets, the closed form writes what the set computation writes |
| EdgeStats.SetPass | app/initialization_scripts/build_graph.py:266-279 | the set computation over the edge list: one result per edge |
| EdgeStats.CypherSharedUnion | app/initialization_scripts/build_graph.py:258-290 | definition, as written: the edges after the update, then the report, which reads `updated_relationships_count` and then `errorMessages` |
| EdgeStats.CypherSharedUnionFixed | app/initialization_scripts/build_graph.py:284-287 | definition, corrected: the same update, and a report that reads only `updated_relationships_count` |
| EdgeStats.ErrorMessagesMissing | app/initialization_scripts/build_graph.py:280-290 | as written, the report always raises `KeyError` on `errorMessages`, after the update has run: the edges are those of the corrected version |
| EdgeStats.UpdatedCountMatched | app/initialization_scripts/build_graph.py:280 | `count(r)` is the number of edges whose two ends both have a domain |
| EdgeStats.FixedReportsUpdated | app/initialization_scripts/build_graph.py:266-287 | Corrected:<br>• the report is the number of edges whose two ends have a domain;<br>• exactly those edges get the intersection and union sizes;<br>• every other edge is unchanged. |
| Communities.LabeledCountBound | app/search_queries/community_detection.py:277-278 | at most `size` members are labelled |
| Communities.EcUnionMembers | app/search_queries/community_detection.py:281-289 | an EC number is in the community's set exactly when some member with a truthy EC list carries it |
| Communities.RatioRange | app/search_queries/community_detection.py:301 | a count no larger than the size gives a rate in [0, 1] |
| Communities.AddAll | app/search_queries/community_detection.py:287-288 | `set.update` keeps the accumulator duplicate-free and adds exactly the list's elements |
| Communities.CountLabeled | app/search_queries/community_detection.py:277 | the loop counts the members whose `is_labelled` is true |
| Communities.Composition | app/search_queries/community_detection.py:281-293 | the loop collects exactly the union of the truthy EC lists, the sum of the truthy lengths and the set of truthy organisms |
| Communities.AnalyzeCommunity | app/search_queries/community_detection.py:271-316 | One community's record:<br>• labelled + unlabelled = size;<br>• its rates;<br>• a duplicate-free EC list whose elements are the union, with `unique_ec_numbers` its length;<br>• the average length and the organism count;<br>• samples: the first min(20, size) members, with defaults for missing properties. |
| Communities.Describes | app/search_queries/community_detection.py:271-316 | definition: the record the analysis reports for a community (id, size, labelled counts and rates, EC list, average length, organisms, samples) |
| Communities.DescribesFacts | app/search_queries/community_detection.py:277-303 | in a record that describes its members, labelled ≤ size, the labelling rate lies in [0, 1], and an empty community has rates 0 |
| Communities.Largest | app/search_queries/community_detection.py:327 | the largest size bounds every size and is attained; 0 when there is no community |
| Communities.Smallest | app/search_queries/community_detection.py:328 | the smallest size is below every size and is attained; 0 when there is no community |
| Communities.Summarize | app/search_queries/community_detection.py:320-330 | the summary keeps the communities and counts them; smallest ≤ largest; no community gives totals and rates 0 |
| Communities.SummaryRate | app/search_queries/community_detection.py:326 | when each community has labelled ≤ size, the overall rate lies in [0, 1] |
| Communities.AnalyzeCommunities | app/search_queries/community_detection.py:248-332 | one record per community row, each describing its members, and the summary of those records |
| Communities.SumSizesCountsRows | app/search_queries/community_detection.py:321 | the sum of the sizes is the number of members in all rows |
| Communities.TotalIsMembersInCommunities | app/search_queries/community_detection.py:259-265 | when the rows group exactly the proteins with a community id, `total_proteins_in_communities` is their number |
| LabelInference.Qualifying | app/search_queries/community_detection.py:556 | a community is processed exactly when it has unknown members and EC numbers |
| LabelInference.DescribedIndexable | app/search_queries/community_detection.py:560 | on the analysis's own records, `ec_numbers[0]` never fails for a processed community |
| LabelInference.AllDetails | app/search_queries/community_detection.py:563-571 | one detail per processed community |
| LabelInference.DetailsFollowQualifying | app/search_queries/community_detection.py:556-571 | detail k belongs to the k-th processed community and predicts its first EC number |
| LabelInference.PredictMissingLabels | app/search_queries/community_detection.py:546-582 | The result is an error exactly when a processed community has an empty EC list. Otherwise:<br>• the total of new predictions is the sum of the processed communities' unknown members;<br>• the processed count is their number;<br>• the details are the first 10. |
| LabelInference.PredictedLabelsAreKnown | app/search_queries/community_detection.py:560-569 | on the analysis's records, every predicted label is an EC number that some member of that community carries |
| LabelInference.AllComparisons | app/search_queries/community_detection.py:592-611 | one comparison per processed community |
| LabelInference.ComparisonsFollowQualifying | app/search_queries/community_detection.py:592-611 | comparison k is about the k-th processed community |
| LabelInference.ComparisonContents | app/search_queries/community_detection.py:594-609 | the union result is the community's EC list; the majority result is its first EC number, or "N/A" for an empty list, and agrees with the predicted label |
| LabelInference.CompareMethods | app/search_queries/community_detection.py:585-620 | the count is the number of processed communities and the data their first 50 comparisons; nothing is written |
| LabelInference.MajorityWrite | app/search_queries/community_detection.py:643-648 | one community's update keeps every node's other properties |
| LabelInference.ApplyMajority | app/search_queries/community_detection.py:634-650 | the whole majority write keeps every node's other properties |
| LabelInference.IsTarget | app/search_queries/community_detection.py:645-646 | definition: a member of the community with a null or empty `ec_numbers` |
| LabelInference.TargetCountIsTargets | app/search_queries/community_detection.py:643-651 | the write sets `[winner]` on exactly the community's members without EC numbers, and `count(p)` counts them |
| LabelInference.WriteMajorityVote | app/search_queries/community_detection.py:626-657 | when every processed community has an EC list, the store is the majority write and the result is `committed` = the total of updated nodes. Otherwise the result is 0 and the communities before the first failing one stay written. |
| LabelInference.MajorityEffect | app/search_queries/community_detection.py:638-648 | Per node:<br>• only `ec_numbers_calculated` changes;<br>• a node changes only if it has no EC numbers and belongs to a processed community;<br>• such a node of a community that occurs once gets `[first EC]`. |
| LabelInference.Passing | app/search_queries/community_detection.py:437-441 | an EC number is kept exactly when it occurs and its frequency over the labelled count reaches the threshold |
| LabelInference.ValidEcs | app/search_queries/community_detection.py:426-444 | `valid_ecs` holds exactly the community's EC numbers that reach the threshold, each once |
| LabelInference.SelectedByCounts | app/search_queries/community_detection.py:426-441 | For an EC number occurring in the community:<br>• `total_labeled` is positive, so the division is defined;<br>• the EC number passes exactly when its frequency is at least the threshold times `total_labeled`. |
| LabelInference.OccursLabelled | app/search_queries/community_detection.py:426-436 | an EC number occurs in a community only through a member with a non-empty EC list |
| LabelInference.WeightedUpdate | app/search_queries/community_detection.py:443-448 | definition: a target of a community with valid EC numbers gets them; every other node is unchanged |
| LabelInference.WeightedRule | app/search_queries/community_detection.py:419-449 | the weighted rule keeps every node's other properties |
| LabelInference.WeightedSelects | app/search_queries/community_detection.py:426-448 | Per node:<br>• only `ec_numbers_calculated` changes;<br>• nodes with EC numbers or without a community are untouched;<br>• a target gets exactly the `valid_ecs` of its community, or is left as it was when none passes (`collect` over zero rows gives no row);<br>• an EC number is in an updated target's list exactly when it occurs in the community and reaches the threshold. |
| LabelInference.WeightedIdempotent | app/search_queries/community_detection.py:446-448 | running the weighted rule twice is running it once |
| LabelInference.CommunityEcs | app/search_queries/community_detection.py:478-486 | a community's EC list is strictly ascending, hence duplicate-free, and holds exactly the EC numbers its members carry |
| LabelInference.OccurrenceMembers | app/search_queries/community_detection.py:480-483 | an EC number occurs in the community exactly when some member's list contains it |
| LabelInference.ModifyCommunity | app/search_queries/community_detection.py:507-512 | every member of the community, and no other node, gets the given list |
| LabelInference.UnionRule | app/search_queries/community_detection.py:519-544 | the union rule keeps every node's other properties |
| LabelInference.UnionStep | app/search_queries/community_detection.py:539-542 | earlier updates do not change a community's EC list; a community with EC numbers is overwritten with it, one without is skipped |
| LabelInference.CommunityIdsOf | app/search_queries/community_detection.py:525-531 | a community id is returned exactly when some node of the store carries it |
| LabelInference.UpdateEcNumbersFromCommunities | app/search_queries/community_detection.py:519-544 | given the distinct community ids read from the same store, in any order, the loop leaves the store of the union rule over every community present |
| LabelInference.UnionEffect | app/search_queries/community_detection.py:509-510 | Per node:<br>• only `ec_numbers_calculated` changes;<br>• only members of the listed communities change;<br>• such a member of a community with EC numbers gets a sorted list of exactly the EC numbers of its community. |
| LabelInference.UnionCoversPresent | app/search_queries/community_detection.py:524-542 | over every community present, each member of a community with EC numbers gets that community's list, and every other node is unchanged |
| LabelInference.UnionIdempotent | app/search_queries/community_detection.py:539-542 | running the union rule twice is running it once |
| Visualization.QueryForDepth | app/search_queries/neo4j_queries.py:132-142 | depth 1 selects the direct-neighbour query; every other depth selects the two-hop query |
| Visualization.FilterSome | app/search_queries/neo4j_queries.py:167-169 | dropping nulls keeps exactly the present values, and all of them when none is null |
| Visualization.GetProteinNeighborhood | app/search_queries/neo4j_queries.py:156-171 | no neighbourhood exactly when no record or no center returns; otherwise the center, the depth, and the neighbours, relationships and domains without nulls |
| Visualization.ProteinNodeOf | app/search_queries/neo4j_queries.py:387-406 | definition: a protein's display node. The caption is the entry name or else the id; the defaults are `False`, 0 and `[]`. |
| Visualization.NeighborNodes | app/search_queries/neo4j_queries.py:398-407 | one node per neighbour other than the requested id, so no more nodes than neighbours |
| Visualization.NeighborNodesFacts | app/search_queries/neo4j_queries.py:397-407 | every neighbour node is a neighbour-kind protein other than the center; every neighbour other than the center has its node |
| Visualization.Deduplicated | app/search_queries/neo4j_queries.py:417-434 | definition: the first candidate of each unordered pair of truthy endpoints becomes a similarity edge |
| Visualization.DeduplicatedFacts | app/search_queries/neo4j_queries.py:417-434 | Similarity edges:<br>• no more edges than relationships;<br>• every edge has truthy endpoints;<br>• no two edges share an unordered endpoint pair;<br>• the pairs recorded are exactly those of the edges. |
| Visualization.SimilarityEdges | app/search_queries/neo4j_queries.py:418-434 | the loop over the relationships with the `added_edges` set produces the reference deduplication |
| Visualization.AddNeighborNodes | app/search_queries/neo4j_queries.py:397-407 | the neighbour loop appends exactly the reference neighbour nodes |
| Visualization.AddDomains | app/search_queries/neo4j_queries.py:409-443 | the two domain loops append exactly the domain nodes and the `has_domain` edges |
| Visualization.ExportWith | app/search_queries/neo4j_queries.py:380-443 | The export consists of:<br>• the center node, then the neighbour nodes, then the domain nodes;<br>• the deduplicated similarity edges, then the domain edges;<br>• the requested id. |
| Visualization.ExportNeighborhood | app/search_queries/neo4j_queries.py:374-443 | no output exactly when no neighbourhood is found; otherwise the export with the endpoints as written |
| Visualization.ExportNeighborhoodFixed | app/search_queries/neo4j_queries.py:374-443 | no output exactly when no neighbourhood is found; otherwise the export with the relationship's own endpoints |
| Visualization.ExportedShape | app/search_queries/neo4j_queries.py:386-443 | Shape of an export:<br>• the first node is the center, captioned by its id when it has no entry name;<br>• the node count is 1 + neighbours + domains;<br>• the neighbour nodes follow the center;<br>• domain k gives node `domain_<id>` after the neighbours, and a `has_domain` edge from the center after the similarity edges;<br>• at most one edge per relationship and per domain. |
| Visualization.AsWrittenDropsSimilarity | app/search_queries/neo4j_queries.py:419-424 | The endpoints are read from the relationship's `start_node_id` / `end_node_id` properties, with weight and shared count defaulting to 0. When no relationship has such a property, the export has only the `has_domain` edges. |
| Visualization.NoEmitNoEdges | app/search_queries/neo4j_queries.py:424 | relationships without two truthy endpoints produce no similarity edge |
| Visualization.SimilarityEdgeLost | app/search_queries/neo4j_queries.py:421-434 | for one imported `SIMILAR` edge P1–P2, the export as written has no edge, while the corrected one has the similarity edge P1–P2 with weight 0.5 |
| Visualization.EndpointsKeepSimilarity | app/search_queries/neo4j_queries.py:419-434 | corrected to take the endpoints from the relationship itself: every relationship with truthy endpoints has an edge for its pair, and pairs are unique |
| MongoSearch.Conditions | backend/search_queries/mongo_queries.py:162-174 | definition: one condition per truthy criterion, in the order identifier, entry name, name, description |
| MongoSearch.ConditionsCount | backend/search_queries/mongo_queries.py:162-174 | one condition per truthy criterion, at most four; the identifier's comes first and the description's last |
| MongoSearch.AppendIfTruthy | backend/search_queries/mongo_queries.py:164-174 | a condition is appended exactly when its criterion is truthy |
| MongoSearch.SearchWith | backend/search_queries/mongo_queries.py:161-181 | there is no query exactly when no criterion is truthy; otherwise the filter is the single condition, or `$or` of all of them |
| MongoSearch.CombinedSearch | backend/search_queries/mongo_queries.py:161-185 | combined search as written: the name condition queries `protein_name` |
| MongoSearch.CombinedSearchFixed | backend/search_queries/mongo_queries.py:170-171 | the corrected search: the name condition queries `protein_names` |
| MongoSearch.FilterOfMatches | backend/search_queries/mongo_queries.py:181 | a document matches the filter exactly when it matches one of the conditions |
| MongoSearch.ConditionsMatch | backend/search_queries/mongo_queries.py:164-174 | some corrected condition matches exactly when one truthy criterion holds for the document |
| MongoSearch.ConditionsKinds | backend/search_queries/mongo_queries.py:170-174 | the conditions hold a `$text` clause exactly when a description is given, and a clause no ordinary index serves exactly when a name is given (`protein_names` has only the text index, `protein_name` none) |
| MongoSearch.ConditionsRefused | backend/search_queries/mongo_queries.py:170-183 | For either name field, the server refuses the filter exactly when a name and a description are both given. `$text` then sits in a `$or` beside a clause no index serves, and the `OperationFailure` is caught into `[]`. |
| MongoSearch.FixedSearchFinds | backend/search_queries/mongo_queries.py:161-189 | Corrected, a document is found exactly when a truthy criterion matches it (its id, its entry name, one of its protein names, or the text index), except that a name together with a description is refused and finds nothing. |
| MongoSearch.NameConditionMatchesNothing | backend/search_queries/mongo_queries.py:171 | as written, the name condition matches no loaded document |
| MongoSearch.NameOnlySearch | backend/search_queries/mongo_queries.py:170-171 | a search by name alone finds nothing as written; corrected, it finds exactly the documents listing the name |
| MongoSearch.GetStatistics | backend/search_queries/mongo_queries.py:202-216 | definition: the total, the labelled count and the count with domains from the documents; the other two by subtraction |
| MongoSearch.CountsPartition | backend/search_queries/mongo_queries.py:202-216 | labelled + unlabelled = total, and with + without domains = total |
| MongoSearch.StatisticsCount | backend/search_queries/mongo_queries.py:208-216 | the subtractions count what they name, the unlabelled documents and those without domains, and are never negative |
| MongoSearch.UnlabelledMeansNoEc | backend/search_queries/mongo_queries.py:204-208 | when labelled means having EC numbers, the unlabelled count is the count of documents without EC numbers |
| MongoSearch.LoadedUnlabelledMeansNoEc | backend/search_queries/mongo_queries.py:205-208 | for the documents either loader stores, the unlabelled count is the count of documents without EC numbers |

## Findings

| source | as written | input that shows it | evidently intended | confidence | as-written member | corrected member |
|---|---|---|---|---|---|---|
| backend/search_queries/mongo_queries.py:171 | the name criterion becomes `{"protein_name": {"$in": [name]}}`. Both loaders store the names under `protein_names`, and no document has a `protein_name` field. | `combined_search(name="Kinase")` over a document whose `protein_names` is `["Kinase"]`: the filter matches no document | query `protein_names`, the field the loaders fill. A name with a description still returns `[]`: the server refuses `$text` inside a `$or` beside the unindexed name clause (MongoSearch.ConditionsRefused). | not executed | MongoSearch.CombinedSearch, MongoSearch.NameConditionMatchesNothing, MongoSearch.NameOnlySearch | MongoSearch.CombinedSearchFixed, MongoSearch.FixedSearchFinds |
| app/search_queries/neo4j_queries.py:421-424 | the edge loop reads the endpoints from the relationship properties `start_node_id` / `end_node_id`. The graph build writes only `jaccard_weight`, `shared_domains` and `union_domains` on `SIMILAR` edges, so `start_id and end_id` is always false. | a neighbourhood of P1 with one `SIMILAR` edge P1–P2 (weight 0.5): the export has no similarity edge | take the endpoints from the relationship's start and end nodes | not executed | Visualization.ExportNeighborhood, Visualization.AsWrittenDropsSimilarity, Visualization.SimilarityEdgeLost | Visualization.ExportNeighborhoodFixed, Visualization.EndpointsKeepSimilarity |
| app/initialization_scripts/build_graph.py:289 | the report reads `summary['errorMessages']`, but the query's only column is `updated_relationships_count`, so the lookup raises `KeyError` after the update has already run | `calculate_shared_union_domains_cypher` on any graph: the edges are updated, then the function raises | read only `updated_relationships_count`; the `errorMessages` column belongs to the `apoc.periodic.iterate` form of the math pass | not executed | EdgeStats.CypherSharedUnion, EdgeStats.ErrorMessagesMissing | EdgeStats.CypherSharedUnionFixed, EdgeStats.FixedReportsUpdated |

## Left out

- The similarity algorithm is not modelled: the `SIMILAR` edges and their `jaccard_weight` are inputs. Label propagation is not modelled either: the `community_id` values are inputs. The graph projection and its clean-up, the memory estimate, the index creation and the projection drop are left out. All of these are calls into the graph engine.
- Connections, sessions, drivers, `print`, reading the TSV file, writing the JSON file, and the try/except around them are left out; the outcomes they decide are parameters.
- `col.delete_many({})` before the application's load and the index creation after it are left out. The store is not modelled beyond the inserted documents.
- Partial failures of `insert_many(..., ordered=False)` are not modelled. A call either inserts its whole batch or raises (the `failures` set). A duplicate-key error in the backend's bulk insert is not modelled either.
- Floating point is modelled as exact reals. Examples: the labelling rates, the average length, `toFloat(frequency) / total_labeled`, and the closed form J·(A+B)/(1+J) with its `round`.
- Communities.AnalyzeCommunity: `avg_sequence_length` is the exact mean, without `round(x, 1)`.
- Python `list(set(...))` and Cypher `collect` have no specified order. The analysis's EC list is stated as duplicate-free with the right elements, and its order is not fixed. `DISTINCT … ORDER BY` is modelled as strictly ascending by character code; the database's collation of Unicode strings is not modelled.
- The `ORDER BY size DESC` of the community query is not modelled. The community rows are taken in the order given, and nothing in the model depends on that order.
- The `$text` index semantics (tokenising, stemming, languages) are not modelled: the set of documents it matches is a parameter.
- Of the server's query planning, only the rule that refuses `$text` inside a `$or` beside a clause no index serves is modelled. The indexed fields are those both loaders create.
- Other ways the source can raise are not modelled:
  - a missing dictionary key (`KeyError`), except the `errorMessages` lookup listed under Findings;
  - a non-string value stored where a string is read;
  - a non-numeric `threshold`.
  The model's values are typed. `threshold` is not validated by the source and any real is accepted.
- `get_community_ec_numbers` returns `[]` when its query raises. That fault path is not modelled; its result is always the query's result.
- When the query of one community raises in `write_majority_vote`, the function returns 0. The model covers one such raise, `ec_numbers[0]` on an empty list, with the same result; the analysis's own records never cause it (LabelInference.DescribedIndexable). Driver errors are left out.
- `update_ec_numbers_weighted` runs in parallel batches with retries (`apoc.periodic.iterate`). It is modelled as one sequential rule over all communities; its outcome does not depend on the order. The same holds for `precalculate_domain_counts`.
- EdgeStats.PassesComplete: the parallel closed-form pass is modelled by the set of committed edges it leaves. Deadlocks and retries are not modelled individually.
- `get_statistics` also computes the average, minimum and maximum sequence length, the top-5 organisms and the top-5 domains. Those aggregations are left out; the model covers the five counts.
- `compare_prediction_methods` performs no write. This is shown by its signature, which takes no store, rather than by a contract.
- GraphImport.ImportProteinsAndDomains: a crash, the `AttributeError` of a stored null `sequence`, ends the script. The model returns `crashed` instead of raising.
