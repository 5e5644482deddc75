/**
 * The fragment bulk uploader: it reads the records of an archive, drops the error-sentinel
 * records, converts the others to storage rows and hands them to the sink in batches of
 * batchSize rows, flushing a last partial batch at the end.
 */
module FragmentsUploader {

  import opened Wrappers
  import opened AvroRecords
  import opened Batching

  /** The identifier the archive reader gives a record it could not read. */
  const RECORD_ID_ERROR: string := "RECORD_ID_ERROR"

  /** A storage row, as built by FragmentRow.create(key, value). */
  datatype FragmentRow = FragmentRow(key: string, value: string)

  /** The uploader's settings that the batching loop depends on. */
  datatype UploaderConfig = UploaderConfig(batchSize: int, useSyncMode: bool, backPressure: int)

  /** The builder's defaults: batches of 10, asynchronous dispatch, back pressure 5. */
  const DefaultConfig: UploaderConfig := UploaderConfig(10, false, 5)

  /** How an upload ends. */
  datatype UploadResult =
    | Uploaded(recordsReturned: nat)   // upload() returns the reader's count
    | IllegalCapacity                  // new ArrayList<>(batchSize) throws for a negative batchSize
    | BlockedForever                   // the back-pressure wait never ends

  /**
   * The number of rows in every batch dispatched from inside the read loop: the loop
   * dispatches whenever the open batch holds batchSize - 1 rows or more before the add,
   * so a batchSize of 0 or 1 gives one-row batches.
   */
  function EffectiveBatchSize(batchSize: int): (n: nat)
    ensures n >= 1
    ensures batchSize >= 1 ==> n == batchSize
  {
    if batchSize <= 1 then 1 else batchSize
  }

  /** The records that survive the sentinel filter, in input order. */
  function Surviving(records: seq<ExtendedRecord>): (kept: seq<ExtendedRecord>)
    ensures |kept| <= |records|
    ensures forall k :: 0 <= k < |kept| ==> kept[k].id != RECORD_ID_ERROR
  {
    if |records| == 0 then []
    else
      var last := records[|records| - 1];
      Surviving(records[..|records| - 1]) + (if last.id == RECORD_ID_ERROR then [] else [last])
  }

  /** A record is kept exactly when it occurs in the input and is not a sentinel. */
  lemma {:induction false} SurvivingExactly(records: seq<ExtendedRecord>)
    ensures |Surviving(records)| <= |records|
    ensures forall r :: r in Surviving(records) <==> r in records && r.id != RECORD_ID_ERROR
  {
    if |records| > 0 {
      var init := records[..|records| - 1];
      SurvivingExactly(init);
      assert records == init + [records[|records| - 1]];
    }
  }

  /** The rows the uploader should write: each surviving record converted, in input order. */
  function Converted(s: seq<ExtendedRecord>, convert: ExtendedRecord -> FragmentRow): (rows: seq<FragmentRow>)
    ensures |rows| == |s|
    ensures forall i :: 0 <= i < |s| ==> rows[i] == convert(s[i])
  {
    if |s| == 0 then [] else Converted(s[..|s| - 1], convert) + [convert(s[|s| - 1])]
  }

  /** Reading one more record extends the expected rows by that record's row, unless it is a sentinel. */
  lemma ConvertedStep(records: seq<ExtendedRecord>, i: nat, convert: ExtendedRecord -> FragmentRow)
    requires i < |records|
    ensures Converted(Surviving(records[..i + 1]), convert) ==
      Converted(Surviving(records[..i]), convert) +
      (if records[i].id == RECORD_ID_ERROR then [] else [convert(records[i])])
  {
    assert records[..i + 1][..i] == records[..i];
    var before := Surviving(records[..i]);
    if records[i].id != RECORD_ID_ERROR {
      assert (before + [records[i]])[..|before|] == before;
    }
  }

  /**
   * The state the upload loop works on: the queue of open batches, the batches handed to the
   * sink so far, the back-pressure counter and the list of asynchronous writes.
   */
  class BatchQueue {
    const batchSize: int
    const useSyncMode: bool
    const convert: ExtendedRecord -> FragmentRow

    var rows: seq<seq<FragmentRow>>
    var dispatched: seq<seq<FragmentRow>>
    var backPressureCounter: int
    var futures: seq<seq<FragmentRow>>

    /**
     * No write is pending on the counter between dispatches; a synchronous run starts no
     * asynchronous write, an asynchronous run starts one per dispatched batch.
     */
    ghost predicate Valid()
      reads this
    {
      && backPressureCounter == 0
      && (useSyncMode ==> futures == [])
      && (!useSyncMode ==> futures == dispatched)
    }

    /** The state upload() sets up before reading: one empty open batch. */
    constructor (batchSize: int, useSyncMode: bool, convert: ExtendedRecord -> FragmentRow)
      requires batchSize >= 0
      ensures Valid()
      ensures this.batchSize == batchSize && this.useSyncMode == useSyncMode && this.convert == convert
      ensures rows == [[]] && dispatched == []
    {
      this.batchSize := batchSize;
      this.useSyncMode := useSyncMode;
      this.convert := convert;
      rows := [[]];
      dispatched := [];
      backPressureCounter := 0;
      futures := [];
    }

    /** The head of the queue, None when the queue is empty; between records it is never None. */
    function Peek(): (head: Option<seq<FragmentRow>>)
      reads this
      ensures head.None? <==> |rows| == 0
      ensures Between() ==> head == Some(rows[0])
    {
      if |rows| == 0 then None else Some(rows[0])
    }

    /** addRowFn: appends the converted record to the head batch, if there is one. */
    method AddRow(er: ExtendedRecord)
      modifies this
      ensures rows == if |old(rows)| == 0 then [] else [old(rows)[0] + [convert(er)]] + old(rows)[1..]
      ensures dispatched == old(dispatched) && backPressureCounter == old(backPressureCounter)
      ensures futures == old(futures)
    {
      if |rows| > 0 {
        rows := [rows[0] + [convert(er)]] + rows[1..];
      }
    }

    /** hbaseBulkFn: the sink write, bracketed by the back-pressure counter. */
    method HbaseBulk(batch: seq<FragmentRow>)
      modifies this
      ensures dispatched == old(dispatched) + [batch]
      ensures backPressureCounter == old(backPressureCounter)
      ensures rows == old(rows) && futures == old(futures)
    {
      backPressureCounter := backPressureCounter + 1;
      dispatched := dispatched + [batch];
      backPressureCounter := backPressureCounter - 1;
    }

    /**
     * pushIntoHbaseFn: takes the head batch off the queue and dispatches it unless it is
     * empty, inline in sync mode and as an asynchronous write otherwise.
     */
    method PushIntoHbase()
      requires Valid()
      modifies this
      ensures Valid()
      ensures rows == if |old(rows)| == 0 then [] else old(rows)[1..]
      ensures dispatched == old(dispatched) +
        (if |old(rows)| == 0 || |old(rows)[0]| == 0 then [] else [old(rows)[0]])
    {
      if |rows| > 0 {
        var req := rows[0];
        rows := rows[1..];
        if |req| > 0 {
          if useSyncMode {
            HbaseBulk(req);
          } else {
            // The write runs on the executor; its counter bump is net zero.
            futures := futures + [req];
            dispatched := dispatched + [req];
          }
        }
      }
    }

    /** rows.add(new ArrayList<>(batchSize)): opens a fresh batch at the tail of the queue. */
    method AddOpenBatch()
      modifies this
      ensures rows == old(rows) + [[]]
      ensures dispatched == old(dispatched) && backPressureCounter == old(backPressureCounter)
      ensures futures == old(futures)
    {
      rows := rows + [[]];
    }

    /**
     * The queue between two records: exactly one open batch, shorter than a full batch, and
     * every dispatched batch full.
     */
    ghost predicate Between()
      reads this
    {
      && Valid()
      && |rows| == 1
      && |rows[0]| < EffectiveBatchSize(batchSize)
      && forall k :: 0 <= k < |dispatched| ==> |dispatched[k]| == EffectiveBatchSize(batchSize)
    }

    /**
     * The body of the read loop for one record: a sentinel is skipped; any other record is
     * added to the open batch, and the batch is dispatched and replaced by a fresh one when it
     * held batchSize - 1 rows or more before the add.
     */
    method Accept(er: ExtendedRecord)
      requires Between()
      modifies this
      ensures Between()
      ensures Flatten(dispatched) + rows[0] ==
        Flatten(old(dispatched)) + old(rows)[0] + (if er.id == RECORD_ID_ERROR then [] else [convert(er)])
      ensures |old(dispatched)| <= |dispatched| && dispatched[..|old(dispatched)|] == old(dispatched)
    {
      if er.id != RECORD_ID_ERROR {
        var peek := Peek();
        if peek.Some? && |peek.value| < batchSize - 1 {
          AddRow(er);
        } else {
          AddRow(er);
          FlattenAppend(dispatched, rows[0]);
          PushIntoHbase();
          AddOpenBatch();
        }
      }
    }

    /**
     * The read loop: before each record the back-pressure wait, then the record itself. It ends
     * when the records run out, or, when the wait never passes, at the first record.
     */
    method ReadAll(records: seq<ExtendedRecord>, backPressure: int) returns (released: bool)
      requires Between() && rows == [[]] && dispatched == []
      modifies this
      ensures Between()
      ensures released <==> backPressure >= 0 || |records| == 0
      ensures !released ==> dispatched == []
      ensures released ==> Flatten(dispatched) + rows[0] == Converted(Surviving(records), convert)
    {
      var i := 0;
      ghost var expected: seq<FragmentRow> := [];
      while i < |records|
        invariant 0 <= i <= |records|
        invariant Between()
        invariant expected == Converted(Surviving(records[..i]), convert)
        invariant Flatten(dispatched) + rows[0] == expected
        invariant i == 0 ==> dispatched == []
        invariant backPressure < 0 ==> i == 0
      {
        var passed := AwaitBackPressure(backPressure);
        if !passed {
          return false;
        }
        ConvertedStep(records, i, convert);
        Accept(records[i]);
        expected := expected + (if records[i].id == RECORD_ID_ERROR then [] else [convert(records[i])]);
        i := i + 1;
      }
      assert records[..i] == records;
      return true;
    }

    /**
     * The back-pressure wait before each record. Nothing changes the counter while the loop
     * waits, so the wait either passes at once or never ends; released tells which.
     */
    method AwaitBackPressure(backPressure: int) returns (released: bool)
      requires Valid()
      ensures released <==> backPressure >= 0
    {
      released := !(backPressureCounter > backPressure);
    }
  }

  /**
   * upload(): reads every record, batches the surviving ones and returns the reader's count.
   * batches is what the sink receives, in dispatch order.
   */
  method Upload(config: UploaderConfig, records: seq<ExtendedRecord>, convert: ExtendedRecord -> FragmentRow)
    returns (result: UploadResult, batches: seq<seq<FragmentRow>>)
    ensures config.batchSize < 0 ==> result == IllegalCapacity && batches == []
    ensures config.batchSize >= 0 && config.backPressure < 0 && |records| > 0 ==>
      result == BlockedForever && batches == []
    ensures config.batchSize >= 0 && (config.backPressure >= 0 || |records| == 0) ==>
      && result == Uploaded(|records|)
      && batches == Chunks(Converted(Surviving(records), convert), EffectiveBatchSize(config.batchSize))
  {
    if config.batchSize < 0 {
      return IllegalCapacity, [];
    }
    var n := EffectiveBatchSize(config.batchSize);
    var q := new BatchQueue(config.batchSize, config.useSyncMode, convert);
    var released := q.ReadAll(records, config.backPressure);
    if !released {
      return BlockedForever, q.dispatched;
    }
    var open := q.rows[0];
    ChunksOfFullBatches(q.dispatched, open, n);
    q.PushIntoHbase();
    return Uploaded(|records|), q.dispatched;
  }

  /** An input made only of sentinels dispatches nothing. */
  lemma {:induction false} OnlySentinelsDispatchNothing(records: seq<ExtendedRecord>,
                                                      convert: ExtendedRecord -> FragmentRow, n: nat)
    requires n >= 1
    requires forall k :: 0 <= k < |records| ==> records[k].id == RECORD_ID_ERROR
    ensures Chunks(Converted(Surviving(records), convert), n) == []
  {
    if |records| > 0 {
      var init := records[..|records| - 1];
      OnlySentinelsDispatchNothing(init, convert, n);
      ChunksLaws(Converted(Surviving(init), convert), n);
      assert Converted(Surviving(init), convert) == Flatten(Chunks(Converted(Surviving(init), convert), n));
      assert Surviving(records) == Surviving(init);
    }
  }

  /**
   * With a batchSize of at most one, every surviving record is dispatched as a batch of its
   * own row, in input order.
   */
  lemma {:induction false} SmallBatchSizeGivesSingletons(records: seq<ExtendedRecord>,
                                                       convert: ExtendedRecord -> FragmentRow, batchSize: int)
    requires batchSize <= 1
    ensures var batches := Chunks(Converted(Surviving(records), convert), EffectiveBatchSize(batchSize));
      && |batches| == |Surviving(records)|
      && forall k :: 0 <= k < |batches| ==> batches[k] == [convert(Surviving(records)[k])]
  {
    ChunksOfOne(Converted(Surviving(records), convert));
  }

  /**
   * With the builder's defaults, every batch holds between 1 and 10 rows, and every batch but the
   * last exactly 10.
   */
  lemma DefaultConfigBatchesOfTen(rows: seq<FragmentRow>)
    ensures EffectiveBatchSize(DefaultConfig.batchSize) == 10
    ensures var batches := Chunks(rows, EffectiveBatchSize(DefaultConfig.batchSize));
      && (forall k :: 0 <= k < |batches| ==> 0 < |batches[k]| <= 10)
      && (forall k :: 0 <= k < |batches| - 1 ==> |batches[k]| == 10)
  {
    ChunksLaws(rows, 10);
  }
}
