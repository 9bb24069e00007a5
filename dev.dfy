/** The lookup of `dev_spawn` in `pokecord/dev.py`. */
module Dev {
  import opened Wrappers
  import opened Records
  import opened Text

  /**
   * The name a catalog entry is looked up by: its lowercased alias when
   * the alias is set and non-empty, else its lowercased English name.
   */
  function SpawnName(p: Pokemon): string
  {
    if p.alias.Some? && p.alias.value != [] then Lower(p.alias.value) else Lower(p.name)
  }

  /**
   * The `dev_spawn` loop: the first catalog entry whose lookup name is
   * exactly `name` (the argument itself is not lowercased).
   */
  method FindSpawn(catalog: seq<Pokemon>, name: string) returns (r: Option<nat>)
    ensures r.Some? ==> r.value < |catalog| && SpawnName(catalog[r.value]) == name
    ensures r.Some? ==> forall j :: 0 <= j < r.value ==> SpawnName(catalog[j]) != name
    ensures r.None? <==> forall j :: 0 <= j < |catalog| ==> SpawnName(catalog[j]) != name
  {
    var i := 0;
    while i < |catalog|
      invariant 0 <= i <= |catalog|
      invariant forall j :: 0 <= j < i ==> SpawnName(catalog[j]) != name
    {
      if SpawnName(catalog[i]) == name {
        return Some(i);
      }
      i := i + 1;
    }
    return None;
  }

  /** A name with an upper-case letter never finds an entry. */
  lemma MixedCaseNeverFound(catalog: seq<Pokemon>, name: string, i: nat)
    requires i < |name| && IsUpper(name[i])
    ensures forall j :: 0 <= j < |catalog| ==> SpawnName(catalog[j]) != name
  {
    forall j | 0 <= j < |catalog|
      ensures SpawnName(catalog[j]) != name
    {
      var p := catalog[j];
      LowerHasNoUpper(name, if p.alias.Some? && p.alias.value != [] then p.alias.value else p.name, i);
    }
  }
}
