/**
 * The collaborator entity: its required fields, its checker table, the
 * values the constructor records, the row the store keeps and what the
 * serializer shows of an object.
 */
module CollaboratorModel {
  import opened Json
  import opened Validator

  /** `Collaborator.fields`: the required fields, in declared order; the
      serializer lists them in this order too. */
  const Fields: seq<string> :=
    ["collab_number", "full_name", "birth_date", "current_salary", "active", "sector_name"]

  /** `Collaborator.get_types()` */
  function Types(): map<string, Checker> {
    map[
      "collab_number" := IsInt,
      "full_name" := IsString,
      "birth_date" := IsString,
      "current_salary" := IsFloat,
      "active" := IsBool,
      "sector_name" := IsString
    ]
  }

  /** The schema the collaborator handlers validate against. */
  function CollaboratorSchema(): (s: Schema)
    ensures Consistent(s)
    ensures s.fields == Fields
    ensures s.types["collab_number"] == IsInt && s.types["current_salary"] == IsFloat && s.types["active"] == IsBool
    ensures s.types["full_name"] == IsString && s.types["birth_date"] == IsString && s.types["sector_name"] == IsString
  {
    assert (set f | f in Fields) == Types().Keys;
    Schema(Fields, Types())
  }

  /** The values a request supplies for a collaborator's columns. The salary
      is kept as the JSON value received: nothing computes with it. */
  datatype Details = Details(
    collabNumber: int,
    fullName: string,
    birthDate: string,
    currentSalary: JsonValue,
    active: bool)

  /** A row of the collaborator table: surrogate key, details and the key of
      the parent sector. `sector_name` is not a column. */
  datatype Collaborator = Collaborator(id: nat, details: Details, sectorId: nat)

  function FullNameOf(c: Collaborator): string {
    c.details.fullName
  }

  /** Every field is present with a value of the kind its column stores. */
  predicate WellTyped(p: Payload) {
    && Find(p, "collab_number").Some? && Find(p, "collab_number").value.JInt?
    && Find(p, "full_name").Some? && Find(p, "full_name").value.JString?
    && Find(p, "birth_date").Some? && Find(p, "birth_date").value.JString?
    && Find(p, "current_salary").Some? && Find(p, "current_salary").value != JNull
    && Find(p, "active").Some? && Find(p, "active").value.JBool?
    && Find(p, "sector_name").Some? && Find(p, "sector_name").value.JString?
  }

  /** What the validator lets through to the collaborator handlers: each of
      the six declared fields, holding a value of its column's kind. */
  lemma AcceptedWellTyped(p: Payload, tv: TypeValidator)
    requires Strict(tv)
    requires CheckParameters(CollaboratorSchema(), p, tv).Valid?
    ensures WellTyped(p)
  {
    var s := CollaboratorSchema();
    assert s.types["collab_number"] == IsInt && s.types["active"] == IsBool;
    assert s.types["full_name"] == IsString && s.types["birth_date"] == IsString && s.types["sector_name"] == IsString;
    AcceptedField(s, p, tv, "collab_number");
    AcceptedField(s, p, tv, "full_name");
    AcceptedField(s, p, tv, "birth_date");
    AcceptedField(s, p, tv, "current_salary");
    AcceptedField(s, p, tv, "active");
    AcceptedField(s, p, tv, "sector_name");
  }

  /** ... and nothing else: the accepted keys are exactly the declared fields. */
  lemma AcceptedPayload(p: Payload, tv: TypeValidator)
    requires Strict(tv)
    requires CheckParameters(CollaboratorSchema(), p, tv).Valid?
    ensures WellTyped(p)
    ensures KeySet(p) == set f | f in Fields
  {
    AcceptedWellTyped(p, tv);
    ValidPayloadKeys(CollaboratorSchema(), p, tv);
  }

  /** The values `Collaborator(...)` records from a request, unchanged. */
  function DetailsOf(p: Payload): (d: Details)
    requires WellTyped(p)
    ensures Find(p, "collab_number") == Some(JInt(d.collabNumber))
    ensures Find(p, "full_name") == Some(JString(d.fullName))
    ensures Find(p, "birth_date") == Some(JString(d.birthDate))
    ensures Find(p, "current_salary") == Some(d.currentSalary)
    ensures Find(p, "active") == Some(JBool(d.active))
  {
    Details(
      Find(p, "collab_number").value.i,
      Find(p, "full_name").value.s,
      Find(p, "birth_date").value.s,
      Find(p, "current_salary").value,
      Find(p, "active").value.b)
  }

  /** `request.json['sector_name']` */
  function SectorNameOf(p: Payload): (name: string)
    requires WellTyped(p)
    ensures Find(p, "sector_name") == Some(JString(name))
  {
    Find(p, "sector_name").value.s
  }

  /** `collaborator_schema.dump(obj)`: the declared fields the object has, in
      declared order. A freshly constructed object also carries the
      `sector_name` it was given; a row read back from the table does not. */
  function Dump(c: Collaborator, sectorName: Option<string>): (p: Payload)
    ensures Keys(p) == if sectorName.Some? then Fields else Fields[..5]
  {
    var columns: Payload := [
      ("collab_number", JInt(c.details.collabNumber)),
      ("full_name", JString(c.details.fullName)),
      ("birth_date", JString(c.details.birthDate)),
      ("current_salary", c.details.currentSalary),
      ("active", JBool(c.details.active))];
    if sectorName.Some? then columns + [("sector_name", JString(sectorName.value))] else columns
  }

  /** `collaborators_schema.dump(rows)` */
  function DumpAll(rows: seq<Collaborator>): (ps: seq<Payload>)
    ensures |ps| == |rows|
    ensures forall i :: 0 <= i < |rows| ==> ps[i] == Dump(rows[i], None)
  {
    if rows == [] then [] else [Dump(rows[0], None)] + DumpAll(rows[1..])
  }

  /** Serializing a freshly constructed collaborator and reading the request
      fields back out gives the recorded values again. */
  lemma DumpRoundTrip(c: Collaborator, sectorName: string)
    requires c.details.currentSalary != JNull
    ensures WellTyped(Dump(c, Some(sectorName)))
    ensures DetailsOf(Dump(c, Some(sectorName))) == c.details
    ensures SectorNameOf(Dump(c, Some(sectorName))) == sectorName
  {
    var d := Dump(c, Some(sectorName));
    FindAt(d, 0);
    FindAt(d, 1);
    FindAt(d, 2);
    FindAt(d, 3);
    FindAt(d, 4);
    FindAt(d, 5);
  }

  /** The object built from an accepted request serializes to the request
      itself, key for key (only the order of the keys may differ). */
  lemma DumpOfConstructed(p: Payload, tv: TypeValidator, id: nat, sectorId: nat)
    requires Strict(tv)
    requires CheckParameters(CollaboratorSchema(), p, tv).Valid?
    ensures WellTyped(p)
    ensures forall k :: Find(Dump(Collaborator(id, DetailsOf(p), sectorId), Some(SectorNameOf(p))), k) == Find(p, k)
  {
    AcceptedPayload(p, tv);
    DumpMatchesRequest(p, id, sectorId);
  }

  lemma DumpMatchesRequest(p: Payload, id: nat, sectorId: nat)
    requires WellTyped(p)
    requires KeySet(p) == set f | f in Fields
    ensures forall k :: Find(Dump(Collaborator(id, DetailsOf(p), sectorId), Some(SectorNameOf(p))), k) == Find(p, k)
  {
    var c := Collaborator(id, DetailsOf(p), sectorId);
    var d := Dump(c, Some(SectorNameOf(p)));
    FreshDumpFinds(c, SectorNameOf(p));
    forall k ensures Find(d, k) == Find(p, k) {
      if k == "collab_number" || k == "full_name" || k == "birth_date" {
      } else if k == "current_salary" || k == "active" || k == "sector_name" {
      } else {
        OnlyFields(k);
        assert k !in KeySet(p);
      }
    }
  }

  /** A key other than the six field names is not a field. */
  lemma OnlyFields(k: string)
    requires k != "collab_number" && k != "full_name" && k != "birth_date"
    requires k != "current_salary" && k != "active" && k != "sector_name"
    ensures k !in Fields
  {
    forall i | 0 <= i < |Fields| ensures Fields[i] != k {
      assert i == 0 || i == 1 || i == 2 || i == 3 || i == 4 || i == 5;
    }
  }

  /** What each key of a freshly constructed collaborator's dump holds: the
      five column values and the `sector_name` it was given. */
  lemma FreshDumpFinds(c: Collaborator, sectorName: string)
    ensures var d := Dump(c, Some(sectorName));
      && Find(d, "collab_number") == Some(JInt(c.details.collabNumber))
      && Find(d, "full_name") == Some(JString(c.details.fullName))
      && Find(d, "birth_date") == Some(JString(c.details.birthDate))
      && Find(d, "current_salary") == Some(c.details.currentSalary)
      && Find(d, "active") == Some(JBool(c.details.active))
      && Find(d, "sector_name") == Some(JString(sectorName))
    ensures forall k :: k !in Fields ==> Find(Dump(c, Some(sectorName)), k).None?
  {
    var d := Dump(c, Some(sectorName));
    FindAt(d, 0);
    FindAt(d, 1);
    FindAt(d, 2);
    FindAt(d, 3);
    FindAt(d, 4);
    FindAt(d, 5);
  }

  /** What each key of a row read back from the table dumps to: the five
      column values, and no `sector_name`. This is the content of the get and
      list responses. */
  lemma RowDumpFinds(c: Collaborator)
    ensures var d := Dump(c, None);
      && Find(d, "collab_number") == Some(JInt(c.details.collabNumber))
      && Find(d, "full_name") == Some(JString(c.details.fullName))
      && Find(d, "birth_date") == Some(JString(c.details.birthDate))
      && Find(d, "current_salary") == Some(c.details.currentSalary)
      && Find(d, "active") == Some(JBool(c.details.active))
    ensures Find(Dump(c, None), "sector_name").None?
    ensures forall k :: k !in Fields ==> Find(Dump(c, None), k).None?
  {
    var d := Dump(c, None);
    FindAt(d, 0);
    FindAt(d, 1);
    FindAt(d, 2);
    FindAt(d, 3);
    FindAt(d, 4);
  }

  /** An empty body is reported as missing all six fields, in declared order. */
  lemma EmptyBodyMissesAll(tv: TypeValidator)
    ensures CheckParameters(CollaboratorSchema(), [], tv) == NotEnoughParameters(Fields)
  {
    NothingPresent(Fields);
  }

  lemma {:induction false} NothingPresent(fields: seq<string>)
    ensures MissingParameters(fields, []) == fields
  {
    if fields != [] {
      NothingPresent(fields[1..]);
      assert fields == [fields[0]] + fields[1..];
    }
  }
}
