/**
  The form fill (POST /pdf): the records of the value file, in stored order,
  copied onto the template's fields by exact name. The template's fields are a
  map from field name to current value.
*/
module FormFill {
  import opened Records

  /** The template's fields after the first `|rows|` records have been applied, one at a time. */
  function Filled(fields: map<string, string>, rows: seq<ValueRow>): map<string, string>
    decreases |rows|
  {
    if |rows| == 0 then fields
    else
      var before := Filled(fields, rows[..|rows| - 1]);
      var r := rows[|rows| - 1];
      if r.field in fields then before[r.field := r.value] else before
  }

  /** The fill loop: each record naming a template field sets that field's value. */
  method Fill(fields: map<string, string>, rows: seq<ValueRow>) returns (filled: map<string, string>)
    ensures filled == Filled(fields, rows)
  {
    filled := fields;
    var i := 0;
    while i < |rows|
      invariant 0 <= i <= |rows|
      invariant filled == Filled(fields, rows[..i])
    {
      var r := rows[i];
      assert rows[..i + 1][..i] == rows[..i];
      if r.field in fields {
        filled := filled[r.field := r.value];
      }
      i := i + 1;
    }
    assert rows[..|rows|] == rows;
  }

  /** The fill neither adds nor removes a field. */
  lemma {:induction false} FilledKeys(fields: map<string, string>, rows: seq<ValueRow>)
    ensures Filled(fields, rows).Keys == fields.Keys
    decreases |rows|
  {
    if |rows| > 0 {
      FilledKeys(fields, rows[..|rows| - 1]);
    }
  }

  /**
    A field keeps its value when no record names it, and otherwise ends with the
    value of the last record, in list order, that names it.
  */
  lemma {:induction false} FilledValue(fields: map<string, string>, rows: seq<ValueRow>, name: string)
    requires name in fields
    ensures name in Filled(fields, rows)
    ensures (forall i :: 0 <= i < |rows| ==> rows[i].field != name) ==> Filled(fields, rows)[name] == fields[name]
    ensures forall i :: 0 <= i < |rows| && rows[i].field == name && (forall j :: i < j < |rows| ==> rows[j].field != name)
                        ==> Filled(fields, rows)[name] == rows[i].value
    decreases |rows|
  {
    FilledKeys(fields, rows);
    if |rows| > 0 {
      var init := rows[..|rows| - 1];
      FilledValue(fields, init, name);
      var last := |rows| - 1;
      forall i | 0 <= i < |rows| && rows[i].field == name && (forall j :: i < j < |rows| ==> rows[j].field != name)
        ensures Filled(fields, rows)[name] == rows[i].value
      {
        if i < last {
          assert init[i] == rows[i];
          assert forall j :: i < j < |init| ==> init[j] == rows[j];
        }
      }
      if forall i :: 0 <= i < |rows| ==> rows[i].field != name {
        assert forall i :: 0 <= i < |init| ==> init[i] == rows[i];
      }
    }
  }

  /** A record naming no template field has no effect, wherever it stands in the list. */
  lemma {:induction false} UnmatchedRecordIgnored(fields: map<string, string>, rows: seq<ValueRow>, k: nat)
    requires k < |rows| && rows[k].field !in fields
    ensures Filled(fields, rows[..k] + rows[k + 1..]) == Filled(fields, rows)
    decreases |rows|
  {
    var last := |rows| - 1;
    var init := rows[..last];
    if k == last {
      assert rows[..k] + rows[k + 1..] == init;
    } else {
      var dropped := rows[..k] + rows[k + 1..];
      assert init[k] == rows[k];
      UnmatchedRecordIgnored(fields, init, k);
      assert dropped[..|dropped| - 1] == init[..k] + init[k + 1..];
      assert dropped[|dropped| - 1] == rows[last];
    }
  }
}
