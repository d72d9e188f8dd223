/**
 * Item definitions as the holder receives them, the errors a load can end
 * with, and the two checks made on a definition list before anything is
 * sorted or built: name uniqueness and need normalisation.
 */
module Definitions {
  import opened Wrappers

  /**
   * The `need` field of a definition: absent (or any other falsy value),
   * a single name, or an array of names.
   */
  datatype Need = Absent | Single(name: string) | List(names: seq<string>)

  /**
   * A standard definition (`perItem` false) is built once and may return a
   * pack; a per-item definition is built once for every consumer that
   * names it. The builders themselves are supplied separately to the load,
   * keyed by the definition they belong to.
   */
  datatype Definition = Definition(name: string, need: Need, perItem: bool)

  /** Why a load ended without completing. */
  datatype LoadError =
    | Duplicated(name: string)    // two definitions carry this name
    | UnknownNeed(name: string)   // a need names no definition
    | Cyclic                      // the needs contain a cycle
    | BuilderThrew(name: string)  // the builder of this definition failed

  /**
   * The list of names a definition needs. A missing need, and the empty
   * string (which is falsy), mean no dependency; a single name becomes a
   * one-element list; an array is returned as it is.
   */
  function GetNeed(d: Definition): (r: seq<string>)
    ensures d.need.List? ==> r == d.need.names
    ensures d.need.Single? && d.need.name != "" ==> r == [d.need.name]
    ensures d.need.Absent? || d.need == Single("") ==> r == []
  {
    match d.need
    case Absent => []
    case Single(n) => if n == "" then [] else [n]
    case List(ns) => ns
  }

  /** The names of a definition list, in order. */
  function Names(defs: seq<Definition>): (r: seq<string>)
    ensures |r| == |defs|
    ensures forall k :: 0 <= k < |defs| ==> r[k] == defs[k].name
  {
    seq(|defs|, k requires 0 <= k < |defs| => defs[k].name)
  }

  /** No two definitions in the list share a name. */
  predicate NamesDistinct(defs: seq<Definition>)
  {
    forall i, j :: 0 <= i < j < |defs| ==> defs[i].name != defs[j].name
  }

  /**
   * `name` is the first repeated name of the list: some definition at
   * position i carries it, an earlier definition carries it too, and the
   * names before position i are all distinct.
   */
  ghost predicate IsFirstRepeat(defs: seq<Definition>, name: string)
  {
    exists i :: 0 <= i < |defs| && defs[i].name == name
      && name in Names(defs[..i]) && NamesDistinct(defs[..i])
  }

  /**
   * Scans the definitions in order, remembering the names seen so far,
   * and fails on the first name that was already seen.
   */
  method CheckUniqueDefinitions(defs: seq<Definition>) returns (r: Outcome<LoadError>)
    ensures r.Pass? <==> NamesDistinct(defs)
    ensures r.Fail? ==> r.error.Duplicated? && IsFirstRepeat(defs, r.error.name)
  {
    var names: set<string> := {};
    var i := 0;
    while i < |defs|
      invariant 0 <= i <= |defs|
      invariant names == set k | 0 <= k < i :: defs[k].name
      invariant NamesDistinct(defs[..i])
    {
      var name := defs[i].name;
      if name in names {
        var k :| 0 <= k < i && defs[k].name == name;
        assert Names(defs[..i])[k] == name;
        assert IsFirstRepeat(defs, name);
        return Fail(Duplicated(name));
      }
      names := names + {name};
      i := i + 1;
    }
    assert defs[..i] == defs;
    return Pass;
  }
}
