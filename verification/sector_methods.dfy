/**
 * The sector routes: add, list (all or by a name fragment), get, update and
 * delete. Each write handler validates, looks the path name up, and then
 * inserts, patches or deletes through the store; the read handlers are
 * queries over the sector table.
 */
module SectorMethods {
  import opened Json
  import opened Http
  import opened Validator
  import opened Ordering
  import opened SectorModel
  import opened Database

  function NotFound(name: string): Response {
    Message(404, "Error", "Sector not found with name = " + name)
  }

  /** The first row of the table with that name, as `filter_by(...).first()`
      returns it. */
  predicate FirstNamed(sectors: seq<Sector>, name: string, i: int) {
    0 <= i < |sectors| && sectors[i].name == name
    && forall j :: 0 <= j < i ==> sectors[j].name != name
  }

  /** GET /sectors/all: every sector, ascending by name, or 404 for an empty
      table. */
  function ListAll(sectors: seq<Sector>): (r: Response)
    ensures r.status == 404 <==> sectors == []
    ensures r.status == 404 ==> r == Message(404, "Error", "No sectors found")
    ensures r.status != 404 ==>
              r.status == 200
              && exists rows :: r.body == Array(DumpAll(rows))
                                && SortedBy(rows, NameOf) && multiset(rows) == multiset(sectors)
  {
    var rows := SortBy(sectors, NameOf);
    var result := DumpAll(rows);
    assert |rows| == |sectors| by { assert |multiset(rows)| == |multiset(sectors)|; }
    if result == [] then Message(404, "Error", "No sectors found")
    else Response(200, Array(result))
  }

  /** GET /sectors/all/<name>: the sectors whose name contains `needle`,
      ascending by name, or 404 when there are none. */
  function ListFiltered(sectors: seq<Sector>, needle: string): (r: Response)
    ensures r.status == 404 <==> forall s :: s in sectors ==> !Contains(s.name, needle)
    ensures r.status == 404 ==> r == Message(404, "Message", "No sectors registered")
    ensures r.status != 404 ==>
              r.status == 200
              && exists rows :: r.body == Array(DumpAll(rows)) && SortedBy(rows, NameOf)
                                && forall s: Sector :: multiset(rows)[s] == if Contains(s.name, needle) then multiset(sectors)[s] else 0
  {
    var rows := SortBy(Where(sectors, (s: Sector) => Contains(s.name, needle)), NameOf);
    var result := DumpAll(rows);
    if result == [] then
      assert forall s :: s in sectors ==> !Contains(s.name, needle) by {
        forall s | s in sectors ensures !Contains(s.name, needle) {
          assert multiset(rows)[s] == 0;
        }
      }
      Message(404, "Message", "No sectors registered")
    else
      assert rows[0] in multiset(rows);
      Response(200, Array(result))
  }

  /** GET /sectors/<name>: the first sector with that name, or 404. */
  function Get(sectors: seq<Sector>, name: string): (r: Response)
    ensures r.status == 200 <==> exists s :: s in sectors && s.name == name
    ensures r.status == 200 ==> exists i :: FirstNamed(sectors, name, i) && r.body == Object(Dump(sectors[i]))
    ensures r.status != 200 ==> r == NotFound(name)
  {
    match FindSector(sectors, name)
    case None => NotFound(name)
    case Some(i) =>
      assert FirstNamed(sectors, name, i);
      Response(200, Object(Dump(sectors[i])))
  }

  /** After a row is appended, a get by its name finds it, unless an earlier
      row already had that name. */
  lemma GetAfterAppend(rows: seq<Sector>, row: Sector)
    ensures (forall s :: s in rows ==> s.name != row.name) ==> Get(rows + [row], row.name) == Response(200, Object(Dump(row)))
    ensures (exists s :: s in rows && s.name == row.name) ==> Get(rows + [row], row.name) == Get(rows, row.name)
  {
    var after := rows + [row];
    assert after[|rows|] == row;
    assert forall i :: 0 <= i < |rows| ==> after[i] == rows[i];
    var j := FindSector(after, row.name).value;
    match FindSector(rows, row.name)
    case None =>
    case Some(i) =>
  }

  /** POST /sectors/add/<sector_name>. The duplicate check looks at the path
      name, but the row stored takes the body's `name`. */
  method Add(db: Store, sectorName: string, body: Payload, tv: TypeValidator) returns (r: Response)
    requires db.Valid() && Strict(tv)
    modifies db
    ensures db.Valid() && db.collaborators == old(db.collaborators)
    ensures !CheckParameters(SectorSchema(), body, tv).Valid? ==>
              r == Rejection(CheckParameters(SectorSchema(), body, tv)) && db.sectors == old(db.sectors)
    ensures CheckParameters(SectorSchema(), body, tv).Valid? && (exists s :: s in old(db.sectors) && s.name == sectorName) ==>
              r == Message(409, "Error", "Sector already exists with name = " + sectorName) && db.sectors == old(db.sectors)
    ensures CheckParameters(SectorSchema(), body, tv).Valid? && (forall s :: s in old(db.sectors) ==> s.name != sectorName) ==>
              && |db.sectors| == |old(db.sectors)| + 1
              && db.sectors[..|old(db.sectors)|] == old(db.sectors)
              && Find(body, "name") == Some(JString(db.sectors[|old(db.sectors)|].name))
              && (forall s :: s in old(db.sectors) ==> s.id < db.sectors[|old(db.sectors)|].id)
              && db.sectors[|old(db.sectors)|].id == MaxSectorId(old(db.sectors)) + 1
              && r == Response(200, Object(Dump(db.sectors[|old(db.sectors)|])))
  {
    var verdict := CheckParameters(SectorSchema(), body, tv);
    if !verdict.Valid? {
      return Rejection(verdict);
    }
    if FindSector(db.sectors, sectorName).Some? {
      return Message(409, "Error", "Sector already exists with name = " + sectorName);
    }
    AcceptedPayload(body, tv);
    var name := Find(body, "name").value.s;
    var row := db.InsertSector(name);
    r := Response(200, Object(Dump(row)));
  }

  /** PUT /sectors/update/<sector_name>: every sector with that name takes
      the body's `name`, and the body is echoed back. */
  method Update(db: Store, sectorName: string, body: Payload, tv: TypeValidator) returns (r: Response)
    requires db.Valid() && Strict(tv)
    modifies db
    ensures db.Valid() && db.collaborators == old(db.collaborators)
    ensures !CheckParameters(SectorSchema(), body, tv).Valid? ==>
              r == Rejection(CheckParameters(SectorSchema(), body, tv)) && db.sectors == old(db.sectors)
    ensures CheckParameters(SectorSchema(), body, tv).Valid? && (forall s :: s in old(db.sectors) ==> s.name != sectorName) ==>
              r == NotFound(sectorName) && db.sectors == old(db.sectors)
    ensures CheckParameters(SectorSchema(), body, tv).Valid? && (exists s :: s in old(db.sectors) && s.name == sectorName) ==>
              && r == Response(200, Object(body))
              && |db.sectors| == |old(db.sectors)|
              && (forall i :: 0 <= i < |db.sectors| ==> db.sectors[i].id == old(db.sectors)[i].id)
              && (forall i :: 0 <= i < |db.sectors| && old(db.sectors)[i].name == sectorName ==>
                    Find(body, "name") == Some(JString(db.sectors[i].name)))
              && (forall i :: 0 <= i < |db.sectors| && old(db.sectors)[i].name != sectorName ==>
                    db.sectors[i] == old(db.sectors)[i])
              && (Find(body, "name") != Some(JString(sectorName)) ==> Get(db.sectors, sectorName).status == 404)
  {
    var verdict := CheckParameters(SectorSchema(), body, tv);
    if !verdict.Valid? {
      return Rejection(verdict);
    }
    if FindSector(db.sectors, sectorName).None? {
      return NotFound(sectorName);
    }
    AcceptedPayload(body, tv);
    db.UpdateSectors(sectorName, body);
    r := Response(200, Object(body));
  }

  /** DELETE /sectors/delete/<sector_name>: removes the first sector with that
      name. While a collaborator still references it, the store refuses and
      the `IntegrityError` escapes the handler. */
  method Delete(db: Store, sectorName: string) returns (r: Response)
    requires db.Valid()
    modifies db
    ensures db.Valid() && db.collaborators == old(db.collaborators)
    ensures (forall s :: s in old(db.sectors) ==> s.name != sectorName) ==>
              r == NotFound(sectorName) && db.sectors == old(db.sectors)
    ensures forall k :: FirstNamed(old(db.sectors), sectorName, k) ==>
              if exists c :: c in db.collaborators && c.sectorId == old(db.sectors)[k].id then
                r == Raised("IntegrityError") && db.sectors == old(db.sectors)
              else
                && r == Message(200, "Message", "Successfully deleted")
                && db.sectors == old(db.sectors)[..k] + old(db.sectors)[k + 1..]
                && (Get(db.sectors, sectorName).status == 404 <==>
                      forall j :: 0 <= j < |old(db.sectors)| && j != k ==> old(db.sectors)[j].name != sectorName)
  {
    var found := FindSector(db.sectors, sectorName);
    if found.None? {
      return NotFound(sectorName);
    }
    ghost var rows := db.sectors;
    var k := found.value;
    var deleted := db.DeleteSectorAt(k);
    if !deleted {
      return Raised("IntegrityError");
    }
    r := Message(200, "Message", "Successfully deleted");
    GetAfterRemove(rows, sectorName, k);
    forall k' | FirstNamed(rows, sectorName, k') ensures k' == k {}
  }

  /** Once the first row with a name is removed, a get by that name is 404
      exactly when no other row had the name. */
  lemma GetAfterRemove(rows: seq<Sector>, name: string, k: nat)
    requires FirstNamed(rows, name, k)
    ensures Get(rows[..k] + rows[k + 1..], name).status == 404 <==>
              forall j :: 0 <= j < |rows| && j != k ==> rows[j].name != name
  {
    var after := rows[..k] + rows[k + 1..];
    assert forall i :: 0 <= i < |after| ==> after[i] == if i < k then rows[i] else rows[i + 1];
    if exists j :: 0 <= j < |rows| && j != k && rows[j].name == name {
      var j :| 0 <= j < |rows| && j != k && rows[j].name == name;
      assert after[j - 1] in after;
    }
  }
}
