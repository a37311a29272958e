/**
  The template's fields as the sequence of their names, in enumeration order:
  the listing (GET /pdf/Fields) and the renaming of unnamed fields
  (POST /renameFields).
*/
module FormFields {

  /** The character of a decimal digit. */
  function Digit(d: nat): char
    requires d < 10
  {
    ('0' as int + d) as char
  }

  /** The decimal text of a non-negative counter, as `int.ToString()` writes it. */
  function DecimalString(n: nat): (s: string)
    ensures |s| >= 1
    ensures (|s| == 1) == (n < 10)
    decreases n
  {
    if n < 10 then [Digit(n)] else DecimalString(n / 10) + [Digit(n % 10)]
  }

  /** Distinct counters are written as distinct texts. */
  lemma {:induction false} DecimalStringInjective(a: nat, b: nat)
    requires DecimalString(a) == DecimalString(b)
    ensures a == b
    decreases a
  {
    if a >= 10 && b >= 10 {
      var sa, sb := DecimalString(a / 10), DecimalString(b / 10);
      assert DecimalString(a) == sa + [Digit(a % 10)];
      assert DecimalString(b) == sb + [Digit(b % 10)];
      assert |sa| == |sb|;
      assert sa == DecimalString(a)[..|sa|];
      assert sb == DecimalString(b)[..|sb|];
      DecimalStringInjective(a / 10, b / 10);
      assert Digit(a % 10) == DecimalString(a)[|sa|] == Digit(b % 10);
    }
  }

  /** The name given to the k-th unnamed field. */
  function SyntheticName(k: nat): string
  {
    "UnnamedField" + DecimalString(k)
  }

  /** The number of unnamed fields among `names`. */
  function CountUnnamed(names: seq<string>): (c: nat)
    ensures c <= |names|
    decreases |names|
  {
    if |names| == 0 then 0
    else CountUnnamed(names[..|names| - 1]) + (if names[|names| - 1] == "" then 1 else 0)
  }

  /**
    The names after renaming: a named field keeps its name; the unnamed field at
    position i is the (k)-th unnamed one, k = 1 + the unnamed fields before it,
    and gets SyntheticName(k).
  */
  function Renamed(names: seq<string>): seq<string>
  {
    seq(|names|, i requires 0 <= i < |names| =>
      if names[i] == "" then SyntheticName(CountUnnamed(names[..i]) + 1) else names[i])
  }

  /** The rename loop: a counter from 1, used and then incremented for each unnamed field. */
  method RenameUnnamed(names: seq<string>) returns (renamed: seq<string>)
    ensures renamed == Renamed(names)
  {
    var unnamedCounter := 1;
    renamed := [];
    var i := 0;
    while i < |names|
      invariant 0 <= i <= |names|
      invariant unnamedCounter == CountUnnamed(names[..i]) + 1
      invariant renamed == Renamed(names)[..i]
    {
      assert names[..i + 1][..i] == names[..i];
      if names[i] == "" {
        renamed := renamed + [SyntheticName(unnamedCounter)];
        unnamedCounter := unnamedCounter + 1;
      } else {
        renamed := renamed + [names[i]];
      }
      i := i + 1;
    }
  }

  /** The listing loop: every field's name, empty ones included, in enumeration order. */
  method ListFieldNames(names: seq<string>) returns (listed: seq<string>)
    ensures |listed| == |names|
    ensures forall i :: 0 <= i < |names| ==> listed[i] == names[i]
  {
    listed := [];
    for i := 0 to |names|
      invariant listed == names[..i]
    {
      listed := listed + [names[i]];
    }
  }

  /** Renaming keeps the field count and every non-empty name, and leaves no field unnamed. */
  lemma RenamedShape(names: seq<string>)
    ensures |Renamed(names)| == |names|
    ensures forall i :: 0 <= i < |names| && names[i] != "" ==> Renamed(names)[i] == names[i]
    ensures forall i :: 0 <= i < |names| ==> Renamed(names)[i] != ""
  {
  }

  /** A second pass over renamed fields changes nothing. */
  lemma RenameIdempotent(names: seq<string>)
    ensures Renamed(Renamed(names)) == Renamed(names)
  {
  }

  /** Counting unnamed fields over a longer prefix never gives less, and an unnamed field adds one. */
  lemma {:induction false} CountUnnamedGrows(names: seq<string>, i: nat, j: nat)
    requires i < j <= |names|
    ensures CountUnnamed(names[..j]) >= CountUnnamed(names[..i]) + (if names[i] == "" then 1 else 0)
    decreases j
  {
    assert names[..j][..j - 1] == names[..j - 1];
    if j - 1 > i {
      CountUnnamedGrows(names, i, j - 1);
    }
  }

  /** Two different unnamed fields never receive the same synthetic name. */
  lemma SyntheticNamesDistinct(names: seq<string>, i: nat, j: nat)
    requires i < j < |names| && names[i] == "" && names[j] == ""
    ensures Renamed(names)[i] != Renamed(names)[j]
  {
    CountUnnamedGrows(names, i, j);
    var a, b := CountUnnamed(names[..i]) + 1, CountUnnamed(names[..j]) + 1;
    if SyntheticName(a) == SyntheticName(b) {
      var prefix := "UnnamedField";
      assert DecimalString(a) == SyntheticName(a)[|prefix|..];
      assert DecimalString(b) == SyntheticName(b)[|prefix|..];
      DecimalStringInjective(a, b);
    }
  }

  /** Nothing stops a synthetic name from repeating a name the template already has. */
  lemma RenameMayCollide()
    ensures Renamed(["UnnamedField1", ""]) == ["UnnamedField1", "UnnamedField1"]
  {
    var names := ["UnnamedField1", ""];
    assert names[..1] == ["UnnamedField1"];
    assert CountUnnamed(names[..1]) == 0 by {
      assert names[..1][..0] == [];
    }
    assert DecimalString(1) == "1";
    assert SyntheticName(1) == "UnnamedField1";
    assert Renamed(names)[1] == "UnnamedField1";
  }

  /** The fields A, (unnamed), B become A, UnnamedField1, B. */
  lemma RenameScenario()
    ensures Renamed(["A", "", "B"]) == ["A", "UnnamedField1", "B"]
  {
    var names := ["A", "", "B"];
    assert names[..1] == ["A"];
    assert CountUnnamed(names[..1]) == 0 by {
      assert names[..1][..0] == [];
    }
    assert DecimalString(1) == "1";
    assert SyntheticName(1) == "UnnamedField1";
    assert Renamed(names)[1] == "UnnamedField1";
  }
}
