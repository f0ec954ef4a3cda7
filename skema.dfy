/** One entry of a model's `skema.fields` list, as the admin screens store it
    and as both apiserver/db.py and apiserver/models.py read it. */
module Skema {
  import opened PyCore

  /** The keys the code reads from a field descriptor: `name`, `type`,
      `nullable`, `in_overview` and `args`. The flags stay JSON values
      because the code only applies Python's truth test to them. */
  datatype FieldDescriptor = FieldDescriptor(
    name: string,
    typeTag: string,
    nullable: Json,
    inOverview: Json,
    args: Dict<Json>)

  function Names(fields: seq<FieldDescriptor>): (ns: seq<string>)
    ensures |ns| == |fields|
    ensures forall i :: 0 <= i < |fields| ==> ns[i] == fields[i].name
  {
    seq(|fields|, i requires 0 <= i < |fields| => fields[i].name)
  }

  /** No two descriptors share a name. */
  predicate DistinctNames(fields: seq<FieldDescriptor>)
  {
    forall i, j :: 0 <= i < j < |fields| ==> fields[i].name != fields[j].name
  }

  /** The names of a non-empty list are those of all but its last
      descriptor and the last name. */
  lemma NamesLast(fields: seq<FieldDescriptor>)
    requires fields != []
    ensures forall k :: k in Names(fields) <==> k in Names(fields[..|fields| - 1]) || k == fields[|fields| - 1].name
  {
    assert Names(fields) == Names(fields[..|fields| - 1]) + [fields[|fields| - 1].name];
  }

  /** Dropping the last descriptor keeps the names distinct, and the last
      name is not among the others. */
  lemma DistinctNamesInit(fields: seq<FieldDescriptor>)
    requires fields != [] && DistinctNames(fields)
    ensures DistinctNames(fields[..|fields| - 1])
    ensures forall i :: 0 <= i < |fields| - 1 ==> fields[i].name != fields[|fields| - 1].name
  {
    var init := fields[..|fields| - 1];
    assert forall i :: 0 <= i < |init| ==> init[i] == fields[i];
  }
}
