/**
 * The sector entity: its required fields, its checker table, the row the
 * store keeps, and what the serializer shows of a row.
 */
module SectorModel {
  import opened Json
  import opened Validator

  /** `Sector.fields`: the required fields, in declared order. */
  const Fields: seq<string> := ["name"]

  /** `Sector.get_types()` */
  function Types(): map<string, Checker> {
    map["name" := IsString]
  }

  /** The schema the sector handlers validate against. */
  function SectorSchema(): (s: Schema)
    ensures Consistent(s)
    ensures s.fields == Fields
    ensures s.types.Keys == {"name"} && s.types["name"] == IsString
  {
    assert (set f | f in Fields) == {"name"};
    Schema(Fields, Types())
  }

  /** A row of the sector table: the surrogate key the store assigns and the name. */
  datatype Sector = Sector(id: nat, name: string)

  function NameOf(s: Sector): string {
    s.name
  }

  /** `sector_schema.dump(sector)`: the declared fields only, so the key stays hidden. */
  function Dump(s: Sector): (p: Payload)
    ensures Keys(p) == Fields
    ensures Find(p, "name") == Some(JString(s.name))
  {
    [("name", JString(s.name))]
  }

  /** `sectors_schema.dump(rows)` */
  function DumpAll(rows: seq<Sector>): (ps: seq<Payload>)
    ensures |ps| == |rows|
    ensures forall i :: 0 <= i < |rows| ==> ps[i] == Dump(rows[i])
  {
    if rows == [] then [] else [Dump(rows[0])] + DumpAll(rows[1..])
  }

  /** The only payload the validator lets through to the sector handlers is a
      dict whose single key is `name`, holding a string. */
  lemma AcceptedPayload(p: Payload, tv: TypeValidator)
    requires Strict(tv)
    requires CheckParameters(SectorSchema(), p, tv).Valid?
    ensures |p| == 1 && p[0].0 == "name" && p[0].1.JString?
    ensures Find(p, "name") == Some(p[0].1)
  {
    ValidPayloadKeys(SectorSchema(), p, tv);
    KeyCount(p);
    assert KeySet(p) == {"name"};
    assert p[0].0 in (set f | f in Fields);
    assert Passes(Types(), tv, p[0]);
    FindAt(p, 0);
  }

  /** An empty body is reported as missing `name`. */
  lemma EmptyBodyMissesName(tv: TypeValidator)
    ensures CheckParameters(SectorSchema(), [], tv) == NotEnoughParameters(["name"])
    ensures Contains(ErrorMessage(NotEnoughParameters(["name"])), "parameters are required")
  {
    MessageWording(NotEnoughParameters(["name"]));
  }

  /** A numeric name is a wrong parameter type whenever the string checker
      rejects it. */
  lemma NumericNameIsWrongType(tv: TypeValidator)
    requires !tv(IsString, JInt(123)).0
    ensures CheckParameters(SectorSchema(), [("name", JInt(123))], tv)
            == InvalidParameterType("name", JInt(123), tv(IsString, JInt(123)).1)
    ensures Contains(ErrorMessage(CheckParameters(SectorSchema(), [("name", JInt(123))], tv)), "Wrong parameter type")
  {
    var p: Payload := [("name", JInt(123))];
    assert !Absent(p, "name");
    assert MissingParameters(Fields, p) == [];
    MessageWording(CheckParameters(SectorSchema(), p, tv));
  }
}
