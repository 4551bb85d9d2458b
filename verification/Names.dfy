/** Lists of names: distinctness, and the id a unique name has in its table (its position). */
module Names {

  ghost predicate Distinct(names: seq<string>) {
    forall i, j :: 0 <= i < j < |names| ==> names[i] != names[j]
  }

  function IdOf(names: seq<string>, name: string): (id: nat)
    requires name in names
    ensures id < |names| && names[id] == name
  {
    if names[0] == name then 0 else 1 + IdOf(names[1..], name)
  }
}
