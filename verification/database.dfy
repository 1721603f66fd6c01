/**
 * The relational store behind the handlers: a sector table and a
 * collaborator table, each kept in row order, with the queries the handlers
 * issue and the three write operations of the database helper (`insert`,
 * `update`, `delete`), each committed at once.
 */
module Database {
  import opened Json
  import opened SectorModel
  import opened CollaboratorModel

  predicate UniqueSectorIds(rows: seq<Sector>) {
    forall i, j :: 0 <= i < j < |rows| ==> rows[i].id != rows[j].id
  }

  predicate UniqueCollaboratorIds(rows: seq<Collaborator>) {
    forall i, j :: 0 <= i < j < |rows| ==> rows[i].id != rows[j].id
  }

  function SectorIds(rows: seq<Sector>): set<nat> {
    set s | s in rows :: s.id
  }

  /** The largest key of the table, 0 for an empty table. */
  function MaxSectorId(rows: seq<Sector>): (m: nat)
    ensures forall s :: s in rows ==> s.id <= m
    ensures rows == [] ==> m == 0
    ensures rows != [] ==> exists s :: s in rows && s.id == m
  {
    if rows == [] then 0
    else
      var rest := MaxSectorId(rows[1..]);
      assert forall s :: s in rows ==> s == rows[0] || s in rows[1..];
      if rows[0].id > rest then rows[0].id else rest
  }

  /** The largest key of the table, 0 for an empty table. */
  function MaxCollaboratorId(rows: seq<Collaborator>): (m: nat)
    ensures forall c :: c in rows ==> c.id <= m
    ensures rows == [] ==> m == 0
    ensures rows != [] ==> exists c :: c in rows && c.id == m
  {
    if rows == [] then 0
    else
      var rest := MaxCollaboratorId(rows[1..]);
      assert forall c :: c in rows ==> c == rows[0] || c in rows[1..];
      if rows[0].id > rest then rows[0].id else rest
  }

  /** `Sector.query.filter_by(name=name).first()`, as a row index. */
  function FindSector(rows: seq<Sector>, name: string): (r: Option<nat>)
    ensures r.None? <==> forall i :: 0 <= i < |rows| ==> rows[i].name != name
    ensures r.Some? ==> r.value < |rows| && rows[r.value].name == name
                        && forall j :: 0 <= j < r.value ==> rows[j].name != name
  {
    if rows == [] then None
    else if rows[0].name == name then Some(0)
    else
      match FindSector(rows[1..], name)
      case None => None
      case Some(k) => Some(k + 1)
  }

  /** `Collaborator.query.filter_by(collab_number=number).first()`, as a row index. */
  function FindCollaborator(rows: seq<Collaborator>, number: int): (r: Option<nat>)
    ensures r.None? <==> forall i :: 0 <= i < |rows| ==> rows[i].details.collabNumber != number
    ensures r.Some? ==> r.value < |rows| && rows[r.value].details.collabNumber == number
                        && forall j :: 0 <= j < r.value ==> rows[j].details.collabNumber != number
  {
    if rows == [] then None
    else if rows[0].details.collabNumber == number then Some(0)
    else
      match FindCollaborator(rows[1..], number)
      case None => None
      case Some(k) => Some(k + 1)
  }

  /** A `filter(...)` query: the rows that satisfy the condition, each as
      often as the table holds it. */
  function Where<T(!new)>(rows: seq<T>, keep: T -> bool): (r: seq<T>)
    ensures forall x :: multiset(r)[x] == if keep(x) then multiset(rows)[x] else 0
  {
    if rows == [] then []
    else
      assert rows == [rows[0]] + rows[1..];
      var rest := Where(rows[1..], keep);
      if keep(rows[0]) then [rows[0]] + rest else rest
  }

  /** `query.update(patch)` on one sector row: the `name` column takes the
      patch's string. No other column of the sector table is writable by the
      handlers. */
  function PatchSector(s: Sector, patch: Payload): (r: Sector)
    ensures r.id == s.id
  {
    match Find(patch, "name")
    case Some(JString(n)) => s.(name := n)
    case _ => s
  }

  /** The column value a patch entry writes, or the old value when the patch
      has no entry of the column's kind. */
  function IntOr(v: Option<JsonValue>, current: int): int {
    match v
    case Some(JInt(n)) => n
    case _ => current
  }

  function StringOr(v: Option<JsonValue>, current: string): string {
    match v
    case Some(JString(s)) => s
    case _ => current
  }

  function BoolOr(v: Option<JsonValue>, current: bool): bool {
    match v
    case Some(JBool(b)) => b
    case _ => current
  }

  function ValueOr(v: Option<JsonValue>, current: JsonValue): JsonValue {
    match v
    case Some(x) => x
    case None => current
  }

  function KeyOr(v: Option<JsonValue>, current: nat): nat {
    match v
    case Some(JInt(n)) => if n >= 0 then n else current
    case _ => current
  }

  /** `query.update(patch)` on one collaborator row: each column the patch
      names takes the patch's value. */
  function PatchCollaborator(c: Collaborator, patch: Payload): (r: Collaborator)
    ensures r.id == c.id
  {
    var d := c.details;
    Collaborator(
      c.id,
      Details(
        IntOr(Find(patch, "collab_number"), d.collabNumber),
        StringOr(Find(patch, "full_name"), d.fullName),
        StringOr(Find(patch, "birth_date"), d.birthDate),
        ValueOr(Find(patch, "current_salary"), d.currentSalary),
        BoolOr(Find(patch, "active"), d.active)),
      KeyOr(Find(patch, "sector_id"), c.sectorId))
  }

  /** The patch names no sector, or a sector of the table. */
  predicate RefersToSector(patch: Payload, ids: set<nat>) {
    match Find(patch, "sector_id")
    case Some(JInt(n)) => n < 0 || n in ids
    case _ => true
  }

  /** The store helper's `delete` names its parameter `object`. Python binds
      a keyword argument by parameter name, so a call passing the row under
      any other keyword raises `TypeError` before the session is touched. */
  predicate DeleteBinds(keyword: string) {
    keyword == "object"
  }

  /** Both delete handlers pass the row as `the_object=`: as written, every
      delete that finds its row raises `TypeError` and deletes nothing. */
  lemma DeleteCallAsWritten()
    ensures !DeleteBinds("the_object")
    ensures DeleteBinds("object")
  {
  }

  class Store {
    var sectors: seq<Sector>
    var collaborators: seq<Collaborator>

    /** Keys are unique per table and every collaborator references a
        sector of the table (`sector_id` is a non-null foreign key). */
    ghost predicate Valid()
      reads this
    {
      && UniqueSectorIds(sectors)
      && UniqueCollaboratorIds(collaborators)
      && forall c :: c in collaborators ==> c.sectorId in SectorIds(sectors)
    }

    /** `db.create_all()` on an empty database. */
    constructor ()
      ensures Valid() && sectors == [] && collaborators == []
    {
      sectors := [];
      collaborators := [];
    }

    /** `database.insert(Sector(name))`: the store gives the new row a key
        above every key in the table. */
    method InsertSector(name: string) returns (row: Sector)
      requires Valid()
      modifies this
      ensures Valid()
      ensures row.name == name && row.id == MaxSectorId(old(sectors)) + 1
      ensures forall s :: s in old(sectors) ==> s.id < row.id
      ensures sectors == old(sectors) + [row] && collaborators == old(collaborators)
    {
      row := Sector(MaxSectorId(sectors) + 1, name);
      sectors := sectors + [row];
      assert SectorIds(old(sectors)) <= SectorIds(sectors);
    }

    /** `database.update(Sector.query.filter_by(name=name), patch)`: every
        row with that name is patched; the others keep their values. */
    method UpdateSectors(name: string, patch: Payload)
      requires Valid()
      modifies this
      ensures Valid()
      ensures |sectors| == |old(sectors)| && collaborators == old(collaborators)
      ensures forall i :: 0 <= i < |sectors| ==>
                sectors[i] == if old(sectors)[i].name == name then PatchSector(old(sectors)[i], patch) else old(sectors)[i]
    {
      var rows := sectors;
      sectors := seq(|rows|, i requires 0 <= i < |rows| =>
                   if rows[i].name == name then PatchSector(rows[i], patch) else rows[i]);
      assert SectorIds(rows) <= SectorIds(sectors) by {
        forall x | x in SectorIds(rows) ensures x in SectorIds(sectors) {
          var s :| s in rows && s.id == x;
          var i :| 0 <= i < |rows| && rows[i] == s;
          assert sectors[i].id == x;
        }
      }
    }

    /** `database.delete(the_object=sectors[k])`. The collaborator table's
        foreign key has no cascade: while a collaborator references the row,
        the commit fails (`IntegrityError`) and nothing changes. */
    method DeleteSectorAt(k: nat) returns (deleted: bool)
      requires Valid() && k < |sectors|
      modifies this
      ensures Valid()
      ensures deleted <==> forall c :: c in collaborators ==> c.sectorId != old(sectors)[k].id
      ensures sectors == if deleted then old(sectors)[..k] + old(sectors)[k + 1..] else old(sectors)
      ensures collaborators == old(collaborators)
    {
      var id := sectors[k].id;
      deleted := forall c :: c in collaborators ==> c.sectorId != id;
      if deleted {
        var rows := sectors;
        sectors := rows[..k] + rows[k + 1..];
        assert forall i :: 0 <= i < |sectors| ==> sectors[i] == if i < k then rows[i] else rows[i + 1];
        forall c | c in collaborators ensures c.sectorId in SectorIds(sectors) {
          var s :| s in rows && s.id == c.sectorId;
          var i :| 0 <= i < |rows| && rows[i] == s;
          assert i != k;
          if i < k { assert sectors[i] == s; } else { assert sectors[i - 1] == s; }
        }
      }
    }

    /** `database.insert(new_collaborator)` with `sector_id` set to the
        resolved sector's key. */
    method InsertCollaborator(details: Details, sectorId: nat) returns (row: Collaborator)
      requires Valid() && sectorId in SectorIds(sectors)
      modifies this
      ensures Valid()
      ensures row.details == details && row.sectorId == sectorId
      ensures row.id == MaxCollaboratorId(old(collaborators)) + 1
      ensures forall c :: c in old(collaborators) ==> c.id < row.id
      ensures collaborators == old(collaborators) + [row] && sectors == old(sectors)
    {
      row := Collaborator(MaxCollaboratorId(collaborators) + 1, details, sectorId);
      collaborators := collaborators + [row];
    }

    /** `database.update(Collaborator.query.filter_by(collab_number=number), patch)`. */
    method UpdateCollaborators(number: int, patch: Payload)
      requires Valid() && RefersToSector(patch, SectorIds(sectors))
      modifies this
      ensures Valid()
      ensures |collaborators| == |old(collaborators)| && sectors == old(sectors)
      ensures forall i :: 0 <= i < |collaborators| ==>
                collaborators[i] == if old(collaborators)[i].details.collabNumber == number
                                    then PatchCollaborator(old(collaborators)[i], patch)
                                    else old(collaborators)[i]
    {
      var rows := collaborators;
      collaborators := seq(|rows|, i requires 0 <= i < |rows| =>
                         if rows[i].details.collabNumber == number then PatchCollaborator(rows[i], patch) else rows[i]);
      forall c | c in collaborators ensures c.sectorId in SectorIds(sectors) {
        var i :| 0 <= i < |collaborators| && collaborators[i] == c;
        assert rows[i] in rows;
      }
    }

    /** `database.delete(the_object=collaborators[k])`. */
    method DeleteCollaboratorAt(k: nat)
      requires Valid() && k < |collaborators|
      modifies this
      ensures Valid()
      ensures collaborators == old(collaborators)[..k] + old(collaborators)[k + 1..]
      ensures sectors == old(sectors)
    {
      var rows := collaborators;
      collaborators := rows[..k] + rows[k + 1..];
      assert forall i :: 0 <= i < |collaborators| ==> collaborators[i] == if i < k then rows[i] else rows[i + 1];
      assert forall c :: c in collaborators ==> c in rows;
    }
  }
}
