/**
 * The entry processors the distributed map applies atomically to the record
 * stored under one session id. Each turns the old value under the key (or
 * its absence) into the new value (or absence) and a result.
 */
module EntryProcessors {
  import opened Wrappers
  import opened Wire

  /** A stored session record: attribute name to serialized value. */
  type Record = map<string, Blob>

  /** What a processor leaves under its key (None: absent) and what it returns. */
  datatype Applied<R> = Applied(entry: Option<Record>, result: R)

  /**
   * The record after a batch: a name mapped to null is removed, a name mapped
   * to a value takes it, and every other name keeps its value.
   */
  function ApplyUpdates(rec: Record, batch: map<string, Option<Blob>>): Record {
    map k | k in rec.Keys + batch.Keys && (k in batch ==> batch[k].Some?) ::
      if k in batch then batch[k].value else rec[k]
  }

  /** The three rules of a batch, name by name. */
  lemma UpdateRules(rec: Record, batch: map<string, Option<Blob>>)
    ensures forall k | k in batch && batch[k].None? :: k !in ApplyUpdates(rec, batch)
    ensures forall k | k in batch && batch[k].Some? :: k in ApplyUpdates(rec, batch) && ApplyUpdates(rec, batch)[k] == batch[k].value
    ensures forall k | k !in batch :: (k in ApplyUpdates(rec, batch) <==> k in rec)
    ensures forall k | k !in batch && k in rec :: ApplyUpdates(rec, batch)[k] == rec[k]
  {
  }

  /** Applying batches one after the other is applying their union, the later one winning. */
  lemma UpdatesCompose(rec: Record, b1: map<string, Option<Blob>>, b2: map<string, Option<Blob>>)
    ensures ApplyUpdates(ApplyUpdates(rec, b1), b2) == ApplyUpdates(rec, b1 + b2)
  {
  }

  /** SessionUpdateEntryProcessor: a batch of attribute writes, null meaning delete. */
  class SessionUpdateEntryProcessor {
    var attributes: map<string, Option<Blob>>

    /** The (int size) constructor: an empty batch the caller then fills. */
    constructor WithCapacity(size: int)
      ensures attributes == map[]
    {
      attributes := map[];
    }

    /** The (key, value) constructor: a batch of exactly that one entry. */
    constructor Single(key: string, value: Option<Blob>)
      ensures attributes == map[key := value]
      ensures |attributes| == 1
    {
      attributes := map[key := value];
    }

    /** The no-argument constructor used by the serializer factory: an empty batch. */
    constructor ()
      ensures attributes == map[]
    {
      attributes := map[];
    }

    /** Adds one entry to the batch, as `getAttributes().put(name, data)` does. */
    method Put(name: string, value: Option<Blob>)
      modifies this
      ensures attributes == old(attributes)[name := value]
    {
      attributes := attributes[name := value];
    }

    /**
     * Creates an empty record when the key is absent, applies the batch entry
     * by entry, always writes the record back, and returns TRUE.
     */
    method Process(entry: Option<Record>) returns (r: Applied<bool>)
      ensures r.result && r.entry.Some?
      ensures r.entry.value == ApplyUpdates(entry.GetOr(map[]), attributes)
    {
      var base := entry.GetOr(map[]);
      var state := base;
      var remaining := attributes.Keys;
      while remaining != {}
        invariant remaining <= attributes.Keys
        invariant forall k | k in attributes && k !in remaining && attributes[k].None? :: k !in state
        invariant forall k | k in attributes && k !in remaining && attributes[k].Some? :: k in state && state[k] == attributes[k].value
        invariant forall k | k in state && (k !in attributes || k in remaining) :: k in base && state[k] == base[k]
        invariant forall k | k in base && (k !in attributes || k in remaining) :: k in state
        decreases remaining
      {
        var name :| name in remaining;
        var value := attributes[name];
        if value.None? {
          state := state - {name};
        } else {
          state := state[name := value.value];
        }
        remaining := remaining - {name};
      }
      assert state == ApplyUpdates(base, attributes);
      r := Applied(Some(state), true);
    }

    /** Writes the batch size and one (name, data) pair per entry, nulls included. */
    method WriteData() returns (out: seq<Token>, ghost order: seq<string>)
      ensures Enumerates(order, attributes.Keys)
      ensures out == EncodeMap(attributes, order)
    {
      out := [IntTok(|attributes|)];
      order := [];
      var remaining := attributes.Keys;
      while remaining != {}
        invariant remaining <= attributes.Keys
        invariant forall i, j | 0 <= i < j < |order| :: order[i] != order[j]
        invariant forall k | k in order :: k in attributes && k !in remaining
        invariant forall k | k in attributes :: k in order || k in remaining
        invariant out == EncodeMap(attributes, order)
        decreases remaining
      {
        var k :| k in remaining;
        EncodePairsAppend(attributes, order, k);
        out := out + [StrTok(k), DataTok(attributes[k])];
        order := order + [k];
        remaining := remaining - {k};
      }
    }

    /**
     * Reads a count, replaces the batch with a fresh map sized by it and reads
     * that many pairs into it. When the count cannot be read, or is negative
     * (the map cannot be sized), the batch is untouched.
     */
    method ReadData(inp: seq<Token>) returns (rest: seq<Token>, ok: bool)
      modifies this
      ensures |inp| >= 1 && inp[0].IntTok? && inp[0].n >= 0 ==> ReadMap(inp) == Decoded(attributes, rest, ok)
      ensures |inp| >= 1 && inp[0].IntTok? && inp[0].n < 0 ==> attributes == old(attributes) && rest == inp[1..] && !ok
      ensures !(|inp| >= 1 && inp[0].IntTok?) ==> attributes == old(attributes) && rest == inp && !ok
    {
      if |inp| == 0 || !inp[0].IntTok? {
        return inp, false;
      }
      var attCount := inp[0].n;
      if attCount < 0 {
        return inp[1..], false;
      }
      attributes := map[];
      rest := inp[1..];
      var i := 0;
      while i < attCount
        invariant 0 <= i <= attCount
        invariant ReadPairsInto(map[], inp[1..], attCount) == ReadPairsInto(attributes, rest, attCount - i)
      {
        if |rest| >= 2 && rest[0].StrTok? && rest[1].DataTok? {
          attributes := attributes[rest[0].s := rest[1].d];
          rest := rest[2..];
          i := i + 1;
        } else {
          return rest, false;
        }
      }
      ok := true;
    }
  }

  /** An update sent across the wire: writeData here, readData into a factory-made processor there. */
  method TransferUpdate(p: SessionUpdateEntryProcessor) returns (q: SessionUpdateEntryProcessor)
    ensures q.attributes == p.attributes
  {
    var out, order := p.WriteData();
    q := new SessionUpdateEntryProcessor();
    var rest, ok := q.ReadData(out);
    RoundTrip(p.attributes, order, []);
    assert out + [] == out;
  }

  /** On an absent key, an update creates the record, so even an empty batch leaves an empty record. */
  lemma UpdateCreatesRecord(batch: map<string, Option<Blob>>)
    ensures ApplyUpdates(map[], batch).Keys == set k | k in batch && batch[k].Some?
    ensures batch == map[] ==> ApplyUpdates(map[], batch) == map[]
  {
  }

  /** DeleteSessionEntryProcessor: only `invalidate` is serialized; `removed` records what process did. */
  datatype DeleteSessionEntryProcessor = DeleteSessionEntryProcessor(invalidate: bool, removed: bool)

  /** The (boolean invalidate) constructor. */
  function NewDeleteProcessor(invalidate: bool): DeleteSessionEntryProcessor {
    DeleteSessionEntryProcessor(invalidate, false)
  }

  /**
   * FALSE and nothing created on an absent key; otherwise TRUE, and the record
   * is removed when invalidating and written back unchanged when not.
   */
  function DeleteProcess(p: DeleteSessionEntryProcessor, entry: Option<Record>): (r: (DeleteSessionEntryProcessor, Applied<bool>))
    ensures r.1.result <==> entry.Some?
    ensures r.1.entry.Some? ==> r.1.entry == entry
    ensures r.1.entry.None? <==> (entry.None? || p.invalidate)
    ensures r.0.invalidate == p.invalidate
    ensures r.0.removed == (p.removed || (entry.Some? && p.invalidate))
  {
    if entry.None? then (p, Applied(None, false))
    else if p.invalidate then (p.(removed := true), Applied(None, true))
    else (p, Applied(entry, true))
  }

  /** An invalidating delete applied twice returns TRUE then FALSE, and the key stays absent. */
  lemma DeleteTwice(rec: Record)
    ensures DeleteProcess(NewDeleteProcessor(true), Some(rec)).1 == Applied(None, true)
    ensures DeleteProcess(NewDeleteProcessor(true), DeleteProcess(NewDeleteProcessor(true), Some(rec)).1.entry).1 == Applied(None, false)
  {
  }

  function DeleteWriteData(p: DeleteSessionEntryProcessor): seq<Token> {
    [BoolTok(p.invalidate)]
  }

  function DeleteReadData(p: DeleteSessionEntryProcessor, inp: seq<Token>): Decoded<DeleteSessionEntryProcessor> {
    if |inp| >= 1 && inp[0].BoolTok? then Decoded(p.(invalidate := inp[0].b), inp[1..], true)
    else Decoded(p, inp, false)
  }

  /** The invalidate flag survives the wire; `removed` does not travel and a factory-made processor has it false. */
  lemma DeleteRoundTrip(p: DeleteSessionEntryProcessor, rest: seq<Token>)
    ensures DeleteReadData(DeleteSessionEntryProcessor(false, false), DeleteWriteData(p) + rest) == Decoded(NewDeleteProcessor(p.invalidate), rest, true)
  {
    assert (DeleteWriteData(p) + rest)[1..] == rest;
  }

  /** GetAttributeEntryProcessor: the attribute name, null for a factory-made processor. */
  datatype GetAttributeEntryProcessor = GetAttributeEntryProcessor(attributeName: Option<string>)

  /**
   * null and nothing created on an absent key; otherwise the record is
   * written back unchanged and the stored value for the name is returned,
   * null when the name is not stored.
   */
  function GetAttributeProcess(p: GetAttributeEntryProcessor, entry: Option<Record>): (r: Applied<Option<Blob>>)
    ensures r.entry == entry
    ensures r.result.Some? <==> entry.Some? && p.attributeName.Some? && p.attributeName.value in entry.value
    ensures r.result.Some? ==> r.result.value == entry.value[p.attributeName.value]
  {
    match entry
    case None => Applied(None, None)
    case Some(state) =>
      Applied(entry, if p.attributeName.Some? && p.attributeName.value in state then Some(state[p.attributeName.value]) else None)
  }

  function GetAttributeWriteData(p: GetAttributeEntryProcessor): seq<Token> {
    [UtfTok(p.attributeName)]
  }

  function GetAttributeReadData(p: GetAttributeEntryProcessor, inp: seq<Token>): Decoded<GetAttributeEntryProcessor> {
    if |inp| >= 1 && inp[0].UtfTok? then Decoded(GetAttributeEntryProcessor(inp[0].u), inp[1..], true)
    else Decoded(p, inp, false)
  }

  /** The attribute name survives writeUTF / readUTF. */
  lemma GetAttributeRoundTrip(p: GetAttributeEntryProcessor, rest: seq<Token>)
    ensures GetAttributeReadData(GetAttributeEntryProcessor(None), GetAttributeWriteData(p) + rest) == Decoded(p, rest, true)
  {
    assert (GetAttributeWriteData(p) + rest)[1..] == rest;
  }

  /** GetSessionStateEntryProcessor: returns the stored record itself, null when absent, and changes nothing. */
  function GetSessionStateProcess(entry: Option<Record>): Applied<Option<Record>> {
    Applied(entry, entry)
  }

  /** GetSessionStateEntryProcessor has no fields: it writes nothing and reads nothing. */
  function GetSessionStateWriteData(): seq<Token> {
    []
  }

  function GetSessionStateReadData(inp: seq<Token>): Decoded<()> {
    Decoded((), inp, true)
  }

  /** The state processor neither creates, changes nor removes a record, and returns what is stored. */
  lemma GetSessionStateIsRead(entry: Option<Record>, rest: seq<Token>)
    ensures GetSessionStateProcess(entry).entry == entry
    ensures GetSessionStateProcess(entry).result == entry
    ensures GetSessionStateReadData(GetSessionStateWriteData() + rest).rest == rest
  {
    assert GetSessionStateWriteData() + rest == rest;
  }

  /**
   * GetAttributeNamesEntryProcessor is not part of this model beyond what its
   * caller relies on: the names of the stored record, or null when absent.
   */
  function GetAttributeNamesProcess(entry: Option<Record>): Applied<Option<set<string>>> {
    Applied(entry, if entry.Some? then Some(entry.value.Keys) else None)
  }
}
