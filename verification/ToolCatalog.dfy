/** The capability gate: which tools a reader's announced capabilities permit. */
module ToolCatalog {
  /** An empty capability means ungated. */
  datatype ToolGate = ToolGate(name: string, capability: string)

  predicate DistinctGates(gates: seq<ToolGate>) {
    forall i, j | 0 <= i < j < |gates| :: gates[i].name != gates[j].name
  }

  function UngatedNames(gates: seq<ToolGate>): seq<string> {
    if gates == [] then []
    else
      UngatedNames(gates[..|gates| - 1]) +
      if gates[|gates| - 1].capability == "" then [gates[|gates| - 1].name] else []
  }

  function AllowedNames(gates: seq<ToolGate>, announced: set<string>): seq<string> {
    if gates == [] then []
    else
      var last := gates[|gates| - 1];
      AllowedNames(gates[..|gates| - 1], announced) +
      if last.capability != "" && last.capability in announced then [last.name] else []
  }

  function ToSet(names: seq<string>): set<string> {
    set n | n in names
  }

  lemma {:induction false} UngatedMeaning(gates: seq<ToolGate>, name: string)
    ensures name in UngatedNames(gates) <==>
              exists i :: 0 <= i < |gates| && gates[i].name == name && gates[i].capability == ""
    decreases |gates|
  {
    if gates != [] {
      var n := |gates| - 1;
      UngatedMeaning(gates[..n], name);
      assert forall i | 0 <= i < n :: gates[..n][i] == gates[i];
    }
  }

  /** A gated tool is allowed exactly when its own capability was announced: no reader's
      name, and no other tool, comes into it. */
  lemma {:induction false} AllowedMeaning(gates: seq<ToolGate>, announced: set<string>, name: string)
    ensures name in AllowedNames(gates, announced) <==>
              exists i :: 0 <= i < |gates| && gates[i].name == name
                          && gates[i].capability != "" && gates[i].capability in announced
    decreases |gates|
  {
    if gates != [] {
      var n := |gates| - 1;
      AllowedMeaning(gates[..n], announced, name);
      assert forall i | 0 <= i < n :: gates[..n][i] == gates[i];
    }
  }

  /** Retracting what a session published leaves the ungated tools alone. */
  lemma NeverBoth(gates: seq<ToolGate>, announced: set<string>)
    requires DistinctGates(gates)
    ensures ToSet(UngatedNames(gates)) !! ToSet(AllowedNames(gates, announced))
  {
    forall name | name in UngatedNames(gates) ensures name !in AllowedNames(gates, announced) {
      UngatedMeaning(gates, name);
      AllowedMeaning(gates, announced, name);
    }
  }

  class Catalog {
    const gates: seq<ToolGate>

    constructor (gates: seq<ToolGate>)
      ensures this.gates == gates
    {
      this.gates := gates;
    }

    method Ungated() returns (names: seq<string>)
      ensures names == UngatedNames(gates)
    {
      names := [];
      for i := 0 to |gates|
        invariant names == UngatedNames(gates[..i])
      {
        assert gates[..i + 1][..i] == gates[..i];
        if gates[i].capability == "" {
          names := names + [gates[i].name];
        }
      }
      assert gates[..|gates|] == gates;
    }

    method Allowed(announced: set<string>) returns (names: seq<string>)
      ensures names == AllowedNames(gates, announced)
    {
      names := [];
      for i := 0 to |gates|
        invariant names == AllowedNames(gates[..i], announced)
      {
        assert gates[..i + 1][..i] == gates[..i];
        if gates[i].capability != "" && gates[i].capability in announced {
          names := names + [gates[i].name];
        }
      }
      assert gates[..|gates|] == gates;
    }
  }
}
