# Fragment uploader batching and vocabulary interpretation, modelled in Dafny

This project models two pieces of the biodiversity-record pipelines:

- **The fragment bulk uploader** (`DwcaFragmentsUploader.upload`). It reads the records of a
  Darwin Core archive one by one and drops every record whose identifier is the error sentinel
  `RECORD_ID_ERROR`. It converts each other record to a storage row and appends the row to the
  single open batch at the head of a queue. When an add brings that batch to `batchSize` rows,
  the batch is taken off the queue and written to the sink, and a fresh batch is opened. After
  the last record, a non-empty open batch is flushed. The method returns the reader's count of
  records read, sentinels included.
- **The vocabulary concept setter** (`VocabularyInterpreter`). A table maps the four Darwin Core
  terms lifeStage, establishmentMeans, degreeOfEstablishment and pathway to the setter of the
  matching field of a `BasicRecord`. For a concept found in a term's vocabulary,
  `setLookupConcept` builds the lineage (the parents reversed, then the concept's own name) and
  writes only that term's field. `interpretVocabulary` leaves the record unchanged when there is
  no factory, no vocabulary for the term, no value in the verbatim record or no matching concept.

Files:

- `Wrappers.dfy`: `Option` and `Result`.
- `AvroRecords.dfy`: `ExtendedRecord`, `BasicRecord`, `VocabularyConcept`.
- `Batching.dfy`: the reference partition `Chunks` of a row sequence into batches, and its laws.
- `FragmentsUploader.dfy`: the upload loop. `BatchQueue` is a class holding what the loop
  mutates: the queue of open batches, the batches sent to the sink, the back-pressure counter and
  the futures list. `BatchQueue.ReadAll` is the read loop; the method `Upload` sets up the
  queue, runs the loop, flushes the last batch and is proved against `Chunks`.
- `VocabularyInterpreter.dfy`: the setter table, the lineage, `SetLookupConcept`,
  `InterpretVocabulary` and the four public wrappers.

Modelling choices:

- The archive reader is a `seq<ExtendedRecord>`. `getRecordsReturned()` is its length.
- The row conversion `convertErToRow` is a stub in the source. It is a function-typed parameter
  `convert` here.
- `Upload` also returns `batches`, the batches the sink receives in dispatch order. This is the
  observable effect of the stubbed HBase write.
- In asynchronous mode a batch counts as dispatched when its write is submitted. It is also added
  to `futures`. The submitted task raises and lowers the counter at once, so the model leaves the
  counter at 0 between dispatches.
- `new ArrayList<>(batchSize)` throws `IllegalArgumentException` for a negative capacity. So a
  negative `batchSize` ends `upload()` before any record is read (`IllegalCapacity`). A
  `batchSize` of 0 behaves like 1: the test `size < batchSize - 1` never holds, so every row is
  dispatched alone.
- In sync mode the counter is 0 at every back-pressure check, because the write raises and
  lowers it before the loop reads it again. So the wait passes at once when `backPressure >= 0`.
  When `backPressure < 0` and the archive holds a record, it spins forever on the first record
  (`BlockedForever`). The model treats the counter as 0 at each check in async mode too (see
  "## Left out").
- `BasicRecord` is a value. An interpretation returns the updated record instead of calling a
  setter on a shared object. `interpretX(factory)` returns a `BiConsumer`; the model's
  `InterpretX(factory, extract, er, br)` is that consumer applied to `(er, br)`.
- `extractNullAwareOptValue` is the parameter `extract`. The factory is an
  `Option<FileVocabularyFactory>`, where `None` stands for `null`. Its vocabularies are functions
  returning `Option`.
- The concept's `parents` is an immutable `seq`, so nothing the model does can change it.
  `LineageRecoversParents` shows that the parents can still be read back from the lineage.
- `RECORD_ID_ERROR` is defined in `ExtendedRecordConverter.java`, which is not part of this model.
  The model uses the value `"RECORD_ID_ERROR"`. No proof depends on it.

## Model

| member | source | states |
|---|---|---|
| FragmentsUploader.Upload | pipelines/ingest-fragments-uploader/src/main/java/org/gbif/pipelines/fragmenter/DwcaFragmentsUploader.java:65-132 | a negative batchSize fails with IllegalCapacity and writes nothing; a negative backPressure with a non-empty archive blocks forever before writing anything; otherwise the result is the number of records read (sentinels included) and the batches written are exactly Chunks of the converted non-sentinel records, in input order, with batch size max(batchSize, 1) |
| FragmentsUploader.BatchQueue.ReadAll | pipelines/ingest-fragments-uploader/src/main/java/org/gbif/pipelines/fragmenter/DwcaFragmentsUploader.java:99-119 | the loop keeps exactly one open batch in the queue, shorter than a full batch, and every dispatched batch full; it runs to the end exactly when backPressure >= 0 or there is no record, and then the dispatched rows followed by the open batch are the converted non-sentinel records in input order; otherwise it stops at the first record with nothing dispatched |
| FragmentsUploader.BatchQueue.Peek | pipelines/ingest-fragments-uploader/src/main/java/org/gbif/pipelines/fragmenter/DwcaFragmentsUploader.java:109 | the head is null exactly when the queue is empty; between records it is the one open batch, so the null test at line 110 never fails |
| FragmentsUploader.BatchQueue.Accept | pipelines/ingest-fragments-uploader/src/main/java/org/gbif/pipelines/fragmenter/DwcaFragmentsUploader.java:106-117 | one read-loop step keeps one open batch below the batch size and every dispatched batch full; the rows dispatched plus the open batch grow by the record's row, or stay the same for a sentinel; earlier dispatched batches are kept |
| FragmentsUploader.BatchQueue.constructor | pipelines/ingest-fragments-uploader/src/main/java/org/gbif/pipelines/fragmenter/DwcaFragmentsUploader.java:70-74 | the queue starts with one empty open batch, nothing dispatched, counter 0, no futures |
| FragmentsUploader.BatchQueue.AddRow | pipelines/ingest-fragments-uploader/src/main/java/org/gbif/pipelines/fragmenter/DwcaFragmentsUploader.java:76-77 | the converted record is appended to the head batch when the queue has one; an empty queue is left alone; nothing is dispatched |
| FragmentsUploader.BatchQueue.HbaseBulk | pipelines/ingest-fragments-uploader/src/main/java/org/gbif/pipelines/fragmenter/DwcaFragmentsUploader.java:82-86 | the batch is written to the sink and the counter returns to its earlier value |
| FragmentsUploader.BatchQueue.PushIntoHbase | pipelines/ingest-fragments-uploader/src/main/java/org/gbif/pipelines/fragmenter/DwcaFragmentsUploader.java:88-96 | the head batch is removed from the queue; it is dispatched only if it is non-empty; sync mode starts no future, async mode starts one future per dispatched batch; counter stays 0 |
| FragmentsUploader.BatchQueue.AddOpenBatch | pipelines/ingest-fragments-uploader/src/main/java/org/gbif/pipelines/fragmenter/DwcaFragmentsUploader.java:115 | a fresh empty batch is added at the tail of the queue; nothing else changes |
| FragmentsUploader.BatchQueue.AwaitBackPressure | pipelines/ingest-fragments-uploader/src/main/java/org/gbif/pipelines/fragmenter/DwcaFragmentsUploader.java:101-104 | with the counter at 0, the wait passes exactly when backPressure >= 0 |
| FragmentsUploader.EffectiveBatchSize | pipelines/ingest-fragments-uploader/src/main/java/org/gbif/pipelines/fragmenter/DwcaFragmentsUploader.java:110-116 | the size of every batch dispatched in the loop is at least 1 and equals batchSize when batchSize >= 1 |
| FragmentsUploader.Surviving | pipelines/ingest-fragments-uploader/src/main/java/org/gbif/pipelines/fragmenter/DwcaFragmentsUploader.java:106-107 | the filter keeps at most the records it reads and never keeps a record whose id is RECORD_ID_ERROR |
| FragmentsUploader.SurvivingExactly | pipelines/ingest-fragments-uploader/src/main/java/org/gbif/pipelines/fragmenter/DwcaFragmentsUploader.java:106-107 | a record reaches the batches exactly when it is in the input and its id is not RECORD_ID_ERROR (both directions); the filter never adds records |
| FragmentsUploader.Converted | pipelines/ingest-fragments-uploader/src/main/java/org/gbif/pipelines/fragmenter/DwcaFragmentsUploader.java:76-77 | the rows addRowFn appends, record by record: one row per surviving record, the k-th row being the conversion of the k-th record |
| FragmentsUploader.DefaultConfigBatchesOfTen | pipelines/ingest-fragments-uploader/src/main/java/org/gbif/pipelines/fragmenter/DwcaFragmentsUploader.java:51-61 | with the builder's defaults every batch holds 1 to 10 rows, and every batch but the last exactly 10 |
| FragmentsUploader.OnlySentinelsDispatchNothing | pipelines/ingest-fragments-uploader/src/main/java/org/gbif/pipelines/fragmenter/DwcaFragmentsUploader.java:106-123 | an archive of sentinels only leads to no batch at all |
| FragmentsUploader.SmallBatchSizeGivesSingletons | pipelines/ingest-fragments-uploader/src/main/java/org/gbif/pipelines/fragmenter/DwcaFragmentsUploader.java:110-116 | with batchSize <= 1 every surviving record is its own one-row batch, in input order |
| Batching.ChunksLaws | pipelines/ingest-fragments-uploader/src/main/java/org/gbif/pipelines/fragmenter/DwcaFragmentsUploader.java:99-123 | the batches concatenate back to the rows; no batch is empty or longer than n; all batches but the last hold exactly n rows |
| Batching.ChunksCount | pipelines/ingest-fragments-uploader/src/main/java/org/gbif/pipelines/fragmenter/DwcaFragmentsUploader.java:109-123 | the number of batches is ceil(rows / n) |
| Batching.ChunksOfFullBatches | pipelines/ingest-fragments-uploader/src/main/java/org/gbif/pipelines/fragmenter/DwcaFragmentsUploader.java:122-123 | full batches followed by a shorter open batch, flushed only when non-empty, are exactly the reference partition of their rows |
| Batching.ChunksOfOne | pipelines/ingest-fragments-uploader/src/main/java/org/gbif/pipelines/fragmenter/DwcaFragmentsUploader.java:110-116 | with batch size one there is one batch per row, holding that row |
| VocabularyInterpreter.VocabularyFnMapTerms | sdks/core/src/main/java/org/gbif/pipelines/core/interpreters/core/VocabularyInterpreter.java:26-34 | exactly the four vocabulary terms have a setter, each the setter of its own field |
| VocabularyInterpreter.Setter.Accept | sdks/core/src/main/java/org/gbif/pipelines/core/interpreters/core/VocabularyInterpreter.java:30-33 | each of the four setters stores the concept in its own field and changes no other field |
| VocabularyInterpreter.Reversed | sdks/core/src/main/java/org/gbif/pipelines/core/interpreters/core/VocabularyInterpreter.java:73-74 | same length, the i-th element is the (n-1-i)-th of the input |
| VocabularyInterpreter.ReversedTwice | sdks/core/src/main/java/org/gbif/pipelines/core/interpreters/core/VocabularyInterpreter.java:73-74 | reversal is its own inverse |
| VocabularyInterpreter.Lineage | sdks/core/src/main/java/org/gbif/pipelines/core/interpreters/core/VocabularyInterpreter.java:73-77 | the lineage has |parents| + 1 entries: the parents in reverse order, then the concept's name as the last entry |
| VocabularyInterpreter.LineageRecoversParents | sdks/core/src/main/java/org/gbif/pipelines/core/interpreters/core/VocabularyInterpreter.java:73-77 | the concept's parents are recovered unchanged from the lineage |
| VocabularyInterpreter.SetLookupConcept | sdks/core/src/main/java/org/gbif/pipelines/core/interpreters/core/VocabularyInterpreter.java:67-89 | succeeds exactly for the four mapped terms and otherwise fails with IllegalArgument for that term; on success the term's field holds the concept named after the looked-up concept with its lineage, and every other field is unchanged |
| VocabularyInterpreter.FoundConcept | sdks/core/src/main/java/org/gbif/pipelines/core/interpreters/core/VocabularyInterpreter.java:95-101 | a concept is found exactly when there is a factory, it has a vocabulary for the term, the record has a value for the term and the vocabulary matches that value |
| VocabularyInterpreter.InterpretVocabulary | sdks/core/src/main/java/org/gbif/pipelines/core/interpreters/core/VocabularyInterpreter.java:92-105 | with no concept found the record is unchanged; otherwise the result is SetLookupConcept for the found concept; for a mapped term it never fails and changes only that term's field; for an unmapped term it fails exactly when a concept is found |
| VocabularyInterpreter.InterpretLifeStage | sdks/core/src/main/java/org/gbif/pipelines/core/interpreters/core/VocabularyInterpreter.java:37-40 | never fails, changes only lifeStage, which gets the found concept or keeps its old value |
| VocabularyInterpreter.InterpretEstablishmentMeans | sdks/core/src/main/java/org/gbif/pipelines/core/interpreters/core/VocabularyInterpreter.java:43-46 | never fails, changes only establishmentMeans, which gets the found concept or keeps its old value |
| VocabularyInterpreter.InterpretDegreeOfEstablishment | sdks/core/src/main/java/org/gbif/pipelines/core/interpreters/core/VocabularyInterpreter.java:49-52 | never fails, changes only degreeOfEstablishment, which gets the found concept or keeps its old value |
| VocabularyInterpreter.InterpretPathway | sdks/core/src/main/java/org/gbif/pipelines/core/interpreters/core/VocabularyInterpreter.java:55-58 | never fails, changes only pathway, which gets the found concept or keeps its old value |
| VocabularyInterpreter.InterpretTwice | sdks/core/src/main/java/org/gbif/pipelines/core/interpreters/core/VocabularyInterpreter.java:99-101 | interpreting a mapped term a second time leaves the record as the first time left it |
| VocabularyInterpreter.InterpretationsCommute | sdks/core/src/main/java/org/gbif/pipelines/core/interpreters/core/VocabularyInterpreter.java:92-105 | interpretations of two different mapped terms give the same record in either order |

## Left out

- Asynchronous execution: the executor, `CompletableFuture.runAsync` and the final `allOf(...).get()` are not modelled. Async dispatch is recorded as the batch being sent and a future added, at submission time. The order in which the executor completes writes is not modelled.
- The back-pressure wait does not sleep or loop in the model. With no concurrent writer the counter cannot change during the wait, so the wait either passes or blocks forever. The bound on in-flight async writes under a real executor is not captured.
- BatchQueue.AwaitBackPressure: in async mode the model treats the counter as 0 at each check. In the program the executor runs the write (lines 82-86) alongside the read loop, so the loop can read 1 and, with `backPressure = 0`, sleep at line 103 before passing. For `backPressure >= 0` the real wait can delay a record but never blocks for good; the model does not capture the delay.
- HBase: the connection, the locking key service and the write itself are I/O, and the write is a stub in the source. The sink is the `batches` sequence.
- Opening and closing the archive reader (`DwcaReader.fromLocation`, `reader.close()`) is I/O. The reader is a sequence of records.
- `convertErToRow` is a stub in the source. It is the uninterpreted parameter `convert`.
- `VocabularyLookup.lookup`, `FileVocabularyFactory.getVocabularyLookup` and `extractNullAwareOptValue` are calls into code outside this model. They are abstract `Option`-returning functions.
- The text of the `IllegalArgumentException` message is not modelled. The error carries the term.
- The model does not capture that `BasicRecord` is a mutable object shared with the caller. It returns a new record value instead.
