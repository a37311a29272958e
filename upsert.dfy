/**
  The body of the record-store write (POST /data): the request payload reduced to
  a list of incoming records, then merged into the stored list.
*/
module Upsert {
  import opened Wrappers
  import opened Records

  /** A decoded request body: a JSON array of records, or a single JSON object. */
  datatype Payload = JsonArray(items: seq<Record>) | JsonObject(item: Record)

  /** What the write does with the stored list: refuse it, or store this list. */
  datatype UpsertOutcome = Rejected | Updated(records: seq<Record>)

  /** The incoming records of a payload: an array's elements in order, or the one object. */
  function IncomingRecords(payload: Payload): (incoming: seq<Record>)
    ensures |incoming| == 0 <==> payload == JsonArray([])
    ensures payload.JsonArray? ==> incoming == payload.items
    ensures payload.JsonObject? ==> |incoming| == 1 && incoming[0] == payload.item
  {
    match payload
    case JsonArray(items) => items
    case JsonObject(item) => [item]
  }

  /** True when no two records of the list share a key. */
  predicate FieldsUnique(records: seq<Record>)
  {
    forall i, j :: 0 <= i < j < |records| ==> records[i].field != records[j].field
  }

  /** The position of the first record whose key is `key`, if there is one. */
  function FirstMatch(records: seq<Record>, key: string): (found: Option<nat>)
    ensures found.Some? ==>
      && found.value < |records|
      && records[found.value].field == key
      && forall j :: 0 <= j < found.value ==> records[j].field != key
    ensures found.None? <==> forall j :: 0 <= j < |records| ==> records[j].field != key
    decreases |records|
  {
    if |records| == 0 then None
    else if records[0].field == key then Some(0)
    else match FirstMatch(records[1..], key)
      case None => None
      case Some(i) => Some(i + 1)
  }

  /** The lookup `FirstOrDefault(r => r.Field == key)` followed by `IndexOf`. */
  method FindFirst(records: seq<Record>, key: string) returns (found: Option<nat>)
    ensures found == FirstMatch(records, key)
  {
    var i := 0;
    while i < |records|
      invariant 0 <= i <= |records|
      invariant forall j :: 0 <= j < i ==> records[j].field != key
    {
      if records[i].field == key {
        return Some(i);
      }
      i := i + 1;
    }
    return None;
  }

  /**
    What the write computes: no incoming record is refused; several replace the
    whole stored list; one replaces the first stored record with its key, or is
    appended when none has it.
  */
  function Upserted(stored: seq<Record>, incoming: seq<Record>): UpsertOutcome
  {
    if |incoming| == 0 then Rejected
    else if |incoming| > 1 then Updated(incoming)
    else match FirstMatch(stored, incoming[0].field)
      case Some(index) => Updated(stored[index := incoming[0]])
      case None => Updated(stored + [incoming[0]])
  }

  /** The write as the handler performs it, step by step on the loaded list. */
  method Upsert(stored: seq<Record>, incoming: seq<Record>) returns (outcome: UpsertOutcome)
    ensures outcome == Upserted(stored, incoming)
  {
    if |incoming| == 0 {
      return Rejected;
    }
    var records := stored;
    if |incoming| > 1 {
      // delete the existing records and rebuild from the incoming ones
      records := [];
      var i := 0;
      while i < |incoming|
        invariant 0 <= i <= |incoming|
        invariant records == incoming[..i]
      {
        records := records + [incoming[i]];
        i := i + 1;
      }
    } else {
      var found := FindFirst(records, incoming[0].field);
      match found
      case Some(index) =>
        records := records[index := incoming[0]];
      case None =>
        records := records + [incoming[0]];
    }
    return Updated(records);
  }

  /** A write is refused exactly when the payload yields no record. */
  lemma RejectedIffEmpty(stored: seq<Record>, payload: Payload)
    ensures Upserted(stored, IncomingRecords(payload)) == Rejected <==> payload == JsonArray([])
  {
  }

  /** A single object and a one-element array are the same write. */
  lemma SingleObjectAsArray(stored: seq<Record>, r: Record)
    ensures Upserted(stored, IncomingRecords(JsonObject(r))) == Upserted(stored, IncomingRecords(JsonArray([r])))
  {
  }

  /** Two or more incoming records become the stored list, in the given order, whatever it held. */
  lemma BatchReplaces(stored: seq<Record>, incoming: seq<Record>)
    requires |incoming| > 1
    ensures Upserted(stored, incoming) == Updated(incoming)
  {
  }

  /**
    One incoming record whose key some stored record has replaces the first such
    record, at its position; the length and every other position are unchanged.
  */
  lemma SingleReplacesFirstMatch(stored: seq<Record>, r: Record, index: nat)
    requires index < |stored| && stored[index].field == r.field
    requires forall j :: 0 <= j < index ==> stored[j].field != r.field
    ensures Upserted(stored, [r]).Updated?
    ensures |Upserted(stored, [r]).records| == |stored|
    ensures Upserted(stored, [r]).records[index] == r
    ensures forall j :: 0 <= j < |stored| && j != index ==> Upserted(stored, [r]).records[j] == stored[j]
  {
  }

  /**
    One incoming record whose key no stored record has is appended: the length
    grows by one and the old list is a prefix of the new one.
  */
  lemma SingleAppends(stored: seq<Record>, r: Record)
    requires forall j :: 0 <= j < |stored| ==> stored[j].field != r.field
    ensures Upserted(stored, [r]).Updated?
    ensures |Upserted(stored, [r]).records| == |stored| + 1
    ensures Upserted(stored, [r]).records[..|stored|] == stored
    ensures Upserted(stored, [r]).records[|stored|] == r
  {
  }

  /** Every record an accepted write stores was either stored before or sent in the payload. */
  lemma UpsertedDrawsFromInputs(stored: seq<Record>, incoming: seq<Record>)
    requires Upserted(stored, incoming).Updated?
    ensures forall r :: r in Upserted(stored, incoming).records ==> r in stored || r in incoming
  {
  }

  /** A single-record write keeps the keys of a list with distinct keys distinct. */
  lemma SingleKeepsFieldsUnique(stored: seq<Record>, r: Record)
    requires FieldsUnique(stored)
    ensures Upserted(stored, [r]).Updated?
    ensures FieldsUnique(Upserted(stored, [r]).records)
  {
  }

  /** A batch write does not keep keys distinct: it stores duplicates as given. */
  lemma BatchMayDuplicateFields()
    ensures var stored := [ValueRecord("name", "Alice")];
            var incoming := [ValueRecord("age", "30"), ValueRecord("age", "31")];
            Upserted(stored, incoming).Updated? && !FieldsUnique(Upserted(stored, incoming).records)
  {
    var incoming := [ValueRecord("age", "30"), ValueRecord("age", "31")];
    assert incoming[0].field == incoming[1].field;
  }

  /** Updating "age" in [name=Alice, age=30] keeps the order and the row count. */
  lemma UpdateExistingScenario()
    ensures Upserted([ValueRecord("name", "Alice"), ValueRecord("age", "30")], [ValueRecord("age", "31")])
         == Updated([ValueRecord("name", "Alice"), ValueRecord("age", "31")])
  {
  }
}
