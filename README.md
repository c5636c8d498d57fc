# CSV-to-RDF university-choice builder, in Dafny

This project models the `DataTransformer` of the *linked-data* project. It turns a CSV table of Colombian
students' university choices into an RDF graph. It models:

- **identifier minting**: `clean_uri_component`, the five `create_*_uri` functions, and `create_decision_uri`,
  which names a decision by the first 8 hex digits of an MD5 digest;
- **value normalisation**: `convert_boolean`, and the rdflib `Literal` built from a cell;
- **the graph**: a set of triples, as in section 3 of W3C "RDF 1.1 Concepts and Abstract Syntax", so
  `g.add` is set insertion;
- **the builder passes**: `transform_students`, `transform_universities`, `transform_academic_decisions`
  and `add_metadata`, as methods of a `DataTransformer` class that update the graph and the `stats`
  counters in place;
- **the diagnostics**: `print_transformation_stats`, and `validate_data_quality` from
  `src/data_transformer.py`.

The builder follows `src/data_transformer_fixed.py`. In `src/data_transformer.py` everything from the
`makes` edge to the end of the file sits on one physical line (line 245). Citations of the validator
therefore read `src/data_transformer.py:245`. That line also holds literal `\n` and `\"` escape sequences
outside any string, so the file as stored is not valid Python; the model reads the line with those escapes undone.

Layout:

| file | module | content |
|---|---|---|
| `wrappers.dfy` | `Wrappers` | `Option` |
| `pytext.dfy` | `PyText` | Python text operations on Latin-1 text: `\s`, `\w`, `lower`, `strip`, `int()` of a string |
| `cells.dfy` | `Cells` | a CSV cell (`None` for `pd.isna`), plus `str()`, `f"{}"` and `int()` of one |
| `rdf.dfy` | `Rdf` | vocabulary IRIs, literals, triples, the `Graph` class |
| `minting.dfy`, `minting_laws.dfy` | `Minting`, `MintingLaws` | the slug and the IRIs, and their laws |
| `coercion.dfy` | `Coercion` | `convert_boolean`, and literals of cells |
| `rows.dfy` | `Rows` | the table, one loop iteration of each pass as a function, a pass as a fold that the first exception aborts, `drop_duplicates`, and the graph `main` builds |
| `passes.dfy` | `Passes` | laws of passes and of `drop_duplicates` |
| `transformer.dfy` | `Transformer` | the `DataTransformer` class, with its passes, statistics and validation as methods |
| `quality.dfy` | `Quality` | what `validate_data_quality` computes, as functions of the triple set |
| `graph_laws.dfy` | `GraphLaws` | what one iteration of each pass adds |
| `build_laws.dfy` | `BuildLaws` | what the passes guarantee together |

Each loop iteration is a function `StudentRow`, `UniversityRow` or `DecisionRow`. It gives the triples the
loop body adds, and the `int()` exception that cuts it short, if there is one. `Run` folds such a step over
the rows and stops at the first exception. The methods of `Transformer.DataTransformer` do the `g.add` calls
one by one. Their loop invariants tie the graph and the counters to `Run` over the rows already processed.

## Model

| member | source | states |
|---|---|---|
| Cells.IntOf | src/data_transformer_fixed.py:131-139 | `int()` of an int is that int; `int()` of a string that succeeds means the string holds only digits, signs and whitespace; `int()` of a float fails exactly on `inf` and `-inf` (`OverflowError`) |
| Cells.IntOfPrintedInt | src/data_transformer_fixed.py:132 | `int(str(n)) == n` for every integer `n` |
| PyText.ParseIntDecimalText | src/data_transformer_fixed.py:132 | parsing the decimal text of any integer gives that integer back |
| PyText.LowerTextIdempotent | src/data_transformer_fixed.py:75 | lowercasing twice equals lowercasing once |
| PyText.StripUnpadded | src/data_transformer_fixed.py:71 | `strip()` leaves text without outer whitespace unchanged |
| Minting.CleanUriComponent | src/data_transformer_fixed.py:66-75 | a missing value slugs to `unknown`; every slug is lowercase and holds only word characters, `_` and `-`, so no whitespace |
| Minting.CreateDecisionUri | src/data_transformer_fixed.py:102-106 | a decision IRI is the behavior namespace, `decision_`, and exactly 8 lowercase hex digits |
| MintingLaws.SlugifyFixesSlugs | src/data_transformer_fixed.py:71-75 | slugging text that is already a slug changes nothing |
| MintingLaws.CleanUriComponentIdempotent | src/data_transformer_fixed.py:66-75 | `clean_uri_component` is idempotent |
| MintingLaws.SlugifyIgnoresCase | src/data_transformer_fixed.py:71-75 | the slug of a text equals the slug of its lowercase form |
| MintingLaws.CleanUriComponentIgnoresCase | src/data_transformer_fixed.py:71-75 | texts that agree up to letter case get the same slug |
| MintingLaws.SlugifyIgnoresInnerSpacing | src/data_transformer_fixed.py:74 | one inner whitespace character more or fewer in a run gives the same slug |
| MintingLaws.CaseVariantsCollide | src/data_transformer_fixed.py:82-85 | university codes `U001` and `u001` mint the same IRI |
| MintingLaws.SpacingVariantsCollide | src/data_transformer_fixed.py:71-75 | `Valle  del Cauca` and `valle del cauca` get the same slug |
| MintingLaws.DoubleSpaceCollides | src/data_transformer_fixed.py:74 | a doubled inner space gives the same slug as a single one |
| MintingLaws.CapitalCollides | src/data_transformer_fixed.py:75 | a capitalised name gives the same slug as its lowercase form |
| MintingLaws.UnknownCollidesWithMissing | src/data_transformer_fixed.py:68-75 | the text `Unknown` slugs like a missing value |
| MintingLaws.MintUriInjective | src/data_transformer_fixed.py:77-100 | two IRIs of one kind are equal exactly when their slugs are |
| MintingLaws.MintUriKindsDisjoint | src/data_transformer_fixed.py:77-100 | IRIs of different kinds never coincide, whatever the values |
| MintingLaws.DecisionUriIsNotEntityUri | src/data_transformer_fixed.py:77-106 | a decision IRI is never a student, university, area, city or department IRI |
| MintingLaws.DecisionUriByKey | src/data_transformer_fixed.py:102-106 | key pairs whose `_`-joined raw text is equal mint the same decision IRI, whatever the hash |
| MintingLaws.DecisionKeyCollisions | src/data_transformer_fixed.py:105 | `("a_b", "c")` and `("a", "b_c")` mint one decision IRI; so do a missing student id and the text `nan` |
| Coercion.ConvertBoolean | src/data_transformer_fixed.py:108-112 | a missing value is false; a true value's text has 1 to 4 characters |
| Coercion.ConvertBooleanSpelling | src/data_transformer_fixed.py:112 | a text is true exactly when it spells one of `sí`, `si`, `yes`, `true`, `1` up to letter case |
| Coercion.ConvertBooleanIgnoresCase | src/data_transformer_fixed.py:112 | letter case never changes the result |
| Coercion.ConvertBooleanExamples | src/data_transformer_fixed.py:108-112 | `YES`, `Sí` and `True` are true; `No`, the empty text and ` yes` are false |
| Coercion.ConvertBooleanOfBool | src/data_transformer_fixed.py:112 | a boolean cell converts to itself |
| Coercion.ConvertBooleanOfInt | src/data_transformer_fixed.py:112 | an integer cell is true exactly when it is 1 |
| Coercion.ValueLiteral | src/data_transformer_fixed.py:134-135 | only a string value yields a string literal, with the value's text and the language tag; any other value loses the tag |
| Coercion.CellLiteral | src/data_transformer_fixed.py:126 | the literal of a missing cell is NaN, and only then |
| Rows.IntTriples | src/data_transformer_fixed.py:131-132 | a missing cell adds nothing; the step raises exactly when the cell is present and `int()` fails on it |
| Rows.Run | src/data_transformer_fixed.py:118-171 | the counter never exceeds the row count, and equals it when nothing raised |
| Rows.DropDuplicates | src/data_transformer_fixed.py:180-182 | it keeps exactly the values of the table, each once, in the order of their first occurrences |
| Rdf.MatchingCountIsSubjectCount | src/data_transformer_fixed.py:341-346 | there are as many `(?, rdf:type, C)` triples as distinct subjects typed `C` |
| Rdf.Graph.constructor | src/data_transformer_fixed.py:27 | a graph starts with the given triples |
| Rdf.Graph.Add | src/data_transformer_fixed.py:123 | `g.add` inserts the triple into the set, so adding one already present changes nothing |
| Rdf.Graph.CountSubjects | src/data_transformer_fixed.py:341-346 | the count is the number of distinct subjects of matching triples |
| Passes.RunCompletes | src/data_transformer_fixed.py:118-171 | a pass raises exactly when one of its rows does |
| Passes.RunStopsAtFault | src/data_transformer_fixed.py:131-139 | a pass that raised stopped at the first raising row: earlier rows completed, later rows added nothing, and that row's partial triples stay |
| Passes.RunAddsWholeRows | src/data_transformer_fixed.py:118-171 | every triple a pass adds comes from one row, all of whose triples were added too |
| Passes.RunAddsEveryRow | src/data_transformer_fixed.py:118-171 | a completed pass added every row's triples |
| Passes.RunKeepsEdgeTargets | src/data_transformer_fixed.py:147-164 | if every row declares its edges' targets, so does the whole pass |
| Passes.RunAppend | src/data_transformer_fixed.py:118-171 | running two tables in turn equals running their concatenation |
| Passes.RunTwice | src/data_transformer_fixed.py:171 | feeding a completed table twice adds no new triple but counts every row again |
| Passes.DropDuplicatesOfDistinct | src/data_transformer_fixed.py:182 | a table without repeats is kept as it is |
| Passes.DropDuplicatesIdempotent | src/data_transformer_fixed.py:182 | `drop_duplicates` is idempotent |
| Passes.DropDuplicatesCount | src/data_transformer_fixed.py:180-182 | one row is kept per distinct value |
| Quality.ReportBounds | src/data_transformer.py:245 | decisions with a result, and orphaned decisions, never exceed the total decisions |
| Quality.ReportPassedMeans | src/data_transformer.py:245 | validation succeeds exactly when every decision node has an inbound `makes` edge and a `finalDecision` |
| Quality.CoverageBounded | src/data_transformer.py:245 | when every applicant is typed Student, coverage is at most the number of students |
| Quality.ContradictoryResultCountsOnce | src/data_transformer.py:245 | a decision with both a true and a false result counts once, as if one of them were absent |
| Transformer.DataTransformer.constructor | src/data_transformer_fixed.py:17-55 | the graph starts as the loaded ontology, and every counter as 0 |
| Transformer.DataTransformer.AddInt | src/data_transformer_fixed.py:131-132 | adds the integer triple, or reports that `int()` raised and adds nothing |
| Transformer.DataTransformer.AddLinkedNode | src/data_transformer_fixed.py:147-154 | adds the edge together with the target's type, label and identifier |
| Transformer.DataTransformer.AddStudentBase | src/data_transformer_fixed.py:120-128 | adds the student's type, identifier and label |
| Transformer.DataTransformer.AddStudentLinks | src/data_transformer_fixed.py:141-169 | adds the score and the city, area and application links of the present cells |
| Transformer.DataTransformer.AddStudent | src/data_transformer_fixed.py:118-171 | one loop iteration adds `StudentRow`'s triples and raises its exception |
| Transformer.DataTransformer.TransformStudents | src/data_transformer_fixed.py:114-173 | the graph grows by the pass's triples; `students` grows by the completed rows; other counters are unchanged |
| Transformer.DataTransformer.AddUniversity | src/data_transformer_fixed.py:184-226 | one loop iteration adds `UniversityRow`'s triples and raises its exception |
| Transformer.DataTransformer.TransformUniversities | src/data_transformer_fixed.py:175-228 | the same, over the deduplicated six-column records, counting `universities` |
| Transformer.DataTransformer.AddDecision | src/data_transformer_fixed.py:234-278 | one loop iteration adds `DecisionRow`'s triples |
| Transformer.DataTransformer.TransformAcademicDecisions | src/data_transformer_fixed.py:230-280 | the graph grows by the pass's triples and `decisions` by the row count |
| Transformer.DataTransformer.AddMetadata | src/data_transformer_fixed.py:282-305 | adds the eight dataset triples, with `numberOfItems` equal to the row count |
| Transformer.DataTransformer.Transform | src/data_transformer_fixed.py:367-371 | the run completes exactly when neither the student nor the university pass raised; the graph is then `BuiltGraph` and the counters are the row count, the distinct records and the row count |
| Transformer.DataTransformer.PrintTransformationStats | src/data_transformer_fixed.py:329-354 | `total_triples` becomes the graph size, and each entity count is the number of distinct nodes typed with that class |
| Transformer.DataTransformer.CountApplicants | src/data_transformer.py:245 | the count is the number of distinct `appliesTo` subjects |
| Transformer.DataTransformer.CountDecisions | src/data_transformer.py:245 | counts the decision nodes, and those with a `finalDecision` |
| Transformer.DataTransformer.CountOrphans | src/data_transformer.py:245 | counts the decision nodes that no `makes` edge points at |
| Transformer.DataTransformer.ValidateDataQuality | src/data_transformer.py:245 | reads the graph without changing it, and its report is `ReportOf` the graph |
| Transformer.DecisionCounts | src/data_transformer.py:245 | counting type triples counts distinct decision nodes |
| GraphLaws.StudentRowVocabulary | src/data_transformer_fixed.py:118-171 | a student iteration uses only its ten predicates and types only Student, City and KnowledgeArea |
| GraphLaws.UniversityRowVocabulary | src/data_transformer_fixed.py:184-226 | a university iteration uses only its eight predicates and types only University and Department |
| GraphLaws.DecisionRowVocabulary | src/data_transformer_fixed.py:234-278 | a decision iteration uses only its nine predicates and types only AcademicDecision |
| GraphLaws.MetadataVocabulary | src/data_transformer_fixed.py:282-303 | the metadata uses only its eight predicates and types only Dataset |
| GraphLaws.RunVocabulary | src/data_transformer_fixed.py:118-171 | a pass uses only what its iterations use |
| GraphLaws.StudentRowSkipsMissing | src/data_transformer_fixed.py:131-169 | a missing age, gender, stratum, score, city, area or university code yields no triple for that predicate |
| GraphLaws.StudentRowKeepsPresent | src/data_transformer_fixed.py:118-169 | a completed student iteration holds the triple of every present cell, with its literal or minted node |
| GraphLaws.StudentRowRaises | src/data_transformer_fixed.py:131-139 | `int()` on `edad`, then on `estrato`, is what raises; a raising iteration keeps the student node but none of its score, city, area or application triples |
| GraphLaws.StudentRowTypes | src/data_transformer_fixed.py:123-164 | a student iteration types nothing but its student and the city and area of its present cells |
| GraphLaws.StudentRowTypesPresent | src/data_transformer_fixed.py:123-164 | a student iteration always types its student, and once it completes, the city and area of its present cells |
| GraphLaws.StudentRowEdges | src/data_transformer_fixed.py:147-169 | city, area and application edges lead to the nodes minted from the present cells |
| GraphLaws.StudentRowDeclares | src/data_transformer_fixed.py:147-169 | each applicant is typed Student, and each city or area edge target is typed City or KnowledgeArea, within the same iteration |
| GraphLaws.UniversityRowSkipsMissing | src/data_transformer_fixed.py:199-224 | a missing type, accreditation, ranking or department yields no triple for that predicate |
| GraphLaws.UniversityRowOutcome | src/data_transformer_fixed.py:184-224 | it raises exactly on a present non-integer ranking, then without a department link; it always types and titles the university; it adds accreditation, ranking and department when present |
| GraphLaws.UniversityRowShape | src/data_transformer_fixed.py:189-224 | it types only its university and departments, and its `locatedIn` edge leads to the present department's node |
| GraphLaws.UniversityRowDeclares | src/data_transformer_fixed.py:189-224 | the department edge target is typed Department, and the only University node is the record's |
| GraphLaws.DecisionRowLinks | src/data_transformer_fixed.py:238-272 | a decision iteration never raises; it types the decision, links it from its student with `makes` and to its university with `dc:subject` |
| GraphLaws.DecisionRowResult | src/data_transformer_fixed.py:250-253 | a decision has a result exactly when `eligio_universidad` is present, and the result is `convert_boolean` of it |
| GraphLaws.DecisionRowFlags | src/data_transformer_fixed.py:260-269 | agreement and scholarship flags sit on the university node, which is not the decision node |
| GraphLaws.DecisionRowTypes | src/data_transformer_fixed.py:241 | the only type triple of a decision iteration is its decision's |
| BuildLaws.StudentPassDeclares | src/data_transformer_fixed.py:147-169 | after the student pass, raised or not, every applicant is a Student and every city or area edge target is declared |
| BuildLaws.UniversityPassDeclares | src/data_transformer_fixed.py:214-224 | after the university pass every department edge target is declared |
| BuildLaws.StudentPassCities | src/data_transformer_fixed.py:147-154 | the City nodes are exactly the minted IRIs of the present cities: one node per distinct city, however many rows name it |
| BuildLaws.SharedCityIsOneNode | src/data_transformer_fixed.py:147-154 | rows that all name one city yield exactly one City node |
| BuildLaws.UniversityPassNodes | src/data_transformer_fixed.py:180-226 | `universities` counts distinct six-column records, while the University nodes are the minted codes |
| BuildLaws.RecordReached | src/data_transformer_fixed.py:180-184 | every row's record is among those the university loop visits |
| BuildLaws.SameCodeCountsTwice | src/data_transformer_fixed.py:180-226 | two rows with one code and two names count two universities but yield one University node |
| BuildLaws.StudentsCountRows | src/data_transformer_fixed.py:171 | `students` counts rows: a table fed twice counts twice and adds no Student node |
| BuildLaws.DecisionPassCompletes | src/data_transformer_fixed.py:230-280 | the decisions pass never raises and runs every row |
| BuildLaws.DecisionPassLeavesNoOrphans | src/data_transformer.py:242-245 | after the decisions pass every decision node has an inbound `makes` edge, if none was orphaned before |
| BuildLaws.NoOrphansExtend | src/data_transformer.py:245 | adding triples that type no decision orphans none |
| BuildLaws.PassVocabularies | src/data_transformer_fixed.py:114-280 | each pass uses only its own vocabulary |
| BuildLaws.BuiltGraphHasNoOrphans | src/data_transformer.py:245 | the built graph, over an ontology without orphans, reports zero orphaned decisions |
| BuildLaws.BuiltGraphApplicantsTyped | src/data_transformer_fixed.py:118-171 | in the built graph every applicant is typed Student |
| BuildLaws.BuiltGraphCoverage | src/data_transformer.py:245 | in the built graph, application coverage never exceeds the number of students |
| BuildLaws.ApplicationsReachUniversities | src/data_transformer_fixed.py:167-189 | once the university pass completes, every `appliesTo` edge ends at a node typed University |
| BuildLaws.DisagreeingRowsResolveOnce | src/data_transformer_fixed.py:251-253 | two rows of one pair with disagreeing choices give both a true and a false result, and the decision counts once as resolved |
| BuildLaws.MetadataCountsRows | src/data_transformer_fixed.py:303 | the dataset's only `numberOfItems` triple carries the row count |
| BuildLaws.DecisionStampOnlyInCreated | src/data_transformer_fixed.py:274-276 | the timestamp affects only the decision's `created` triple |

## Left out

- CSV loading (`pd.read_csv`) is I/O. The table is a parameter (`seq<Row>`) with pandas' inferred cell values.
- A missing column (a `KeyError` on the first row access) is not modelled, because every `Row` has all seventeen columns.
- Ontology loading (`load_base_ontology`) is file I/O that swallows parse errors. Its result is the constructor's `ontology` parameter.
- Serialisation (`save_rdf_data`) writes files through rdflib's serialisers, which are outside this model.
- `generate_sample_triples` only prints, in rdflib's iteration order.
- `print` output is left out. `PrintTransformationStats` and `ValidateDataQuality` return what they print as values.
- `datetime.now().isoformat()` is nondeterministic. Timestamps are parameters: one per decision row, and one for the metadata.
- `float(puntaje_saber11)` is kept as an opaque literal of the cell. Its `ValueError` on a non-numeric string and its lexical form are not modelled.
- MD5 is a parameter: any function to 32 lowercase hex digits. RFC 1321 itself is not modelled.
- Python's `\w`, `\s` and `str.lower` are exact below U+0100. Above that, characters count neither as word characters nor as whitespace, so the slug drops them.
- `int()` of a string accepts surrounding whitespace, one sign and ASCII digits. Underscores between digits and non-ASCII digits are not accepted.
- `Rows.DropDuplicates` compares records by the model's value equality, so `1`, `1.0` and `True` in one column are three keys, whereas pandas hashes them as one.
- rdflib's literal normalisation (lexical forms, numpy scalar types) is left out. A literal is identified by the Python value given to it.
- `Transformer.DataTransformer.ValidateDataQuality`: the three loops of `validate_data_quality` are the helper methods `CountApplicants`, `CountDecisions` and `CountOrphans`.
- `Transformer.DataTransformer.Transform`: `main`'s `print_transformation_stats` and `save_rdf_data` calls are not part of it.
- `Rows.BuiltGraph` describes the graph only when no pass raised; the graph of a run that raised is given by the passes' own postconditions and `Passes.RunStopsAtFault`.
- `src/ontology_creator.py` (static schema triples), `src/sparql_analyzer.py` (SPARQL queries and charts), `src/final_visualizations.py` and `src/data_analysis.py` (plots and pandas statistics) are not part of this model.
- The builder in `src/data_transformer.py` is the same as the modelled one in `src/data_transformer_fixed.py`, and is not modelled twice.
- A missing column raises `KeyError` partway through a row, a failed `int()` aborts the whole run, and there is no entity registry: nodes merge only because a graph is a set.
