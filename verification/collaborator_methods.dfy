/**
 * The collaborator routes: add, list (all, by a number range, or by a name
 * fragment), get, update and delete. A collaborator always belongs to a
 * sector, which add and update resolve by the body's `sector_name`.
 */
module CollaboratorMethods {
  import opened Json
  import opened Http
  import opened Validator
  import opened Ordering
  import opened CollaboratorModel
  import opened Database
  import SectorModel

  function NotFound(number: nat): Response {
    Message(404, "Error", "Collaborator not found with number = " + Decimal(number))
  }

  function UnknownSector(status: int, name: string): Response {
    Message(status, "Error", "Sector not found with name = " + name)
  }

  /** The first row of the table with that number, as `filter_by(...).first()`
      returns it. */
  predicate FirstNumbered(rows: seq<Collaborator>, number: int, i: int) {
    0 <= i < |rows| && rows[i].details.collabNumber == number
    && forall j :: 0 <= j < i ==> rows[j].details.collabNumber != number
  }

  predicate InRange(c: Collaborator, lower: int, upper: int) {
    lower <= c.details.collabNumber <= upper
  }

  /** GET /collaborators/all: every collaborator, ascending by full name, or
      404 for an empty table. */
  function ListAll(rows: seq<Collaborator>): (r: Response)
    ensures r.status == 404 <==> rows == []
    ensures r.status == 404 ==> r == Message(404, "Error", "No collaborators found")
    ensures r.status != 404 ==>
              r.status == 200
              && exists sorted :: r.body == Array(DumpAll(sorted))
                                  && SortedBy(sorted, FullNameOf) && multiset(sorted) == multiset(rows)
  {
    var sorted := SortBy(rows, FullNameOf);
    var result := DumpAll(sorted);
    assert |sorted| == |rows| by { assert |multiset(sorted)| == |multiset(rows)|; }
    if result == [] then Message(404, "Error", "No collaborators found")
    else Response(200, Array(result))
  }

  /** GET /collaborators/all/<lower>/<upper>: the collaborators whose number
      lies between the bounds, both included, in table order, or 404 when
      there are none. Flask only routes non-negative bounds here. */
  function ListInRange(rows: seq<Collaborator>, lower: nat, upper: nat): (r: Response)
    ensures r.status == 404 <==> forall c :: c in rows ==> !InRange(c, lower, upper)
    ensures r.status == 404 ==> r == Message(404, "Error", "No collaborators found")
    ensures r.status != 404 ==>
              r.status == 200
              && exists found :: r.body == Array(DumpAll(found))
                                 && forall c: Collaborator :: multiset(found)[c] == if InRange(c, lower, upper) then multiset(rows)[c] else 0
  {
    var found := Where(rows, (c: Collaborator) => InRange(c, lower, upper));
    var result := DumpAll(found);
    if result == [] then
      assert forall c :: c in rows ==> !InRange(c, lower, upper) by {
        forall c | c in rows ensures !InRange(c, lower, upper) {
          assert multiset(found)[c] == 0;
        }
      }
      Message(404, "Error", "No collaborators found")
    else
      assert found[0] in multiset(found);
      Response(200, Array(result))
  }

  /** GET /collaborators/all/<name>: the collaborators whose full name
      contains `needle`, ascending by full name, or 404 when there are none. */
  function ListFilteredByName(rows: seq<Collaborator>, needle: string): (r: Response)
    ensures r.status == 404 <==> forall c :: c in rows ==> !Contains(FullNameOf(c), needle)
    ensures r.status == 404 ==> r == Message(404, "Error", "Not found")
    ensures r.status != 404 ==>
              r.status == 200
              && exists sorted :: r.body == Array(DumpAll(sorted)) && SortedBy(sorted, FullNameOf)
                                  && forall c: Collaborator :: multiset(sorted)[c] == if Contains(FullNameOf(c), needle) then multiset(rows)[c] else 0
  {
    var sorted := SortBy(Where(rows, (c: Collaborator) => Contains(FullNameOf(c), needle)), FullNameOf);
    var result := DumpAll(sorted);
    if result == [] then
      assert forall c :: c in rows ==> !Contains(FullNameOf(c), needle) by {
        forall c | c in rows ensures !Contains(FullNameOf(c), needle) {
          assert multiset(sorted)[c] == 0;
        }
      }
      Message(404, "Error", "Not found")
    else
      assert sorted[0] in multiset(sorted);
      Response(200, Array(result))
  }

  /** GET /collaborators/<number>: the first collaborator with that number,
      as read back from the table, or 404. */
  function Get(rows: seq<Collaborator>, number: nat): (r: Response)
    ensures r.status == 200 <==> exists c :: c in rows && c.details.collabNumber == number
    ensures r.status == 200 ==> exists i :: FirstNumbered(rows, number, i) && r.body == Object(Dump(rows[i], None))
    ensures r.status != 200 ==> r == NotFound(number)
  {
    match FindCollaborator(rows, number)
    case None => NotFound(number)
    case Some(i) =>
      assert FirstNumbered(rows, number, i);
      Response(200, Object(Dump(rows[i], None)))
  }

  /** The update patch (the body without `sector_name`, plus a `sector_id`)
      holds the body's value for every other key, and the given sector key. */
  lemma PatchLookups(body: Payload, sectorId: nat)
    ensures var patch := Put(Without(body, "sector_name"), "sector_id", JInt(sectorId));
      && Find(patch, "sector_id") == Some(JInt(sectorId))
      && Find(patch, "sector_name") == None
      && forall k :: k != "sector_name" && k != "sector_id" ==> Find(patch, k) == Find(body, k)
  {
  }

  /** Applying that patch to a row writes an accepted body's five column
      values and the sector key, and keeps the row's key. */
  lemma PatchWritesBody(c: Collaborator, body: Payload, sectorId: nat)
    requires WellTyped(body)
    ensures PatchCollaborator(c, Put(Without(body, "sector_name"), "sector_id", JInt(sectorId)))
            == Collaborator(c.id, DetailsOf(body), sectorId)
  {
    PatchLookups(body, sectorId);
  }

  /** POST /collaborators/add/<number>. The duplicate check looks at the path
      number, but the row stored takes the body's `collab_number`. */
  method Add(db: Store, number: nat, body: Payload, tv: TypeValidator) returns (r: Response)
    requires db.Valid() && Strict(tv)
    modifies db
    ensures db.Valid() && db.sectors == old(db.sectors)
    ensures CheckParameters(CollaboratorSchema(), body, tv).Valid? ==> WellTyped(body)
    ensures !CheckParameters(CollaboratorSchema(), body, tv).Valid? ==>
              r == Rejection(CheckParameters(CollaboratorSchema(), body, tv)) && db.collaborators == old(db.collaborators)
    ensures CheckParameters(CollaboratorSchema(), body, tv).Valid?
            && (exists c :: c in old(db.collaborators) && c.details.collabNumber == number) ==>
              r == Message(409, "Error", "Collaborator already exists with number = " + Decimal(number))
              && db.collaborators == old(db.collaborators)
    ensures CheckParameters(CollaboratorSchema(), body, tv).Valid?
            && (forall c :: c in old(db.collaborators) ==> c.details.collabNumber != number)
            && (forall s :: s in db.sectors ==> s.name != SectorNameOf(body)) ==>
              r == UnknownSector(409, SectorNameOf(body)) && db.collaborators == old(db.collaborators)
    ensures CheckParameters(CollaboratorSchema(), body, tv).Valid?
            && (forall c :: c in old(db.collaborators) ==> c.details.collabNumber != number)
            && (exists s :: s in db.sectors && s.name == SectorNameOf(body)) ==>
              && |db.collaborators| == |old(db.collaborators)| + 1
              && db.collaborators[..|old(db.collaborators)|] == old(db.collaborators)
              && db.collaborators[|old(db.collaborators)|].details == DetailsOf(body)
              && db.collaborators[|old(db.collaborators)|].sectorId
                   == db.sectors[FindSector(db.sectors, SectorNameOf(body)).value].id
              && (forall c :: c in old(db.collaborators) ==> c.id < db.collaborators[|old(db.collaborators)|].id)
              && db.collaborators[|old(db.collaborators)|].id == MaxCollaboratorId(old(db.collaborators)) + 1
              && r.status == 200 && r.body.Object?
              && (forall k :: Find(r.body.members, k) == Find(body, k))
  {
    var verdict := CheckParameters(CollaboratorSchema(), body, tv);
    if !verdict.Valid? {
      return Rejection(verdict);
    }
    AcceptedWellTyped(body, tv);
    if FindCollaborator(db.collaborators, number).Some? {
      return Message(409, "Error", "Collaborator already exists with number = " + Decimal(number));
    }
    var sectorName := SectorNameOf(body);
    var sector := FindSector(db.sectors, sectorName);
    if sector.None? {
      return UnknownSector(409, sectorName);
    }
    var details := DetailsOf(body);
    assert db.sectors[sector.value] in db.sectors;
    var row := db.InsertCollaborator(details, db.sectors[sector.value].id);
    r := Response(200, Object(Dump(row, Some(sectorName))));
    DumpOfConstructed(body, tv, row.id, row.sectorId);
  }

  /** PUT /collaborators/update/<number>: every collaborator with that number
      takes the body's column values and the sector key of the first of them;
      the body's `sector_name` only has to name some sector. The body is
      echoed back. */
  method Update(db: Store, number: nat, body: Payload, tv: TypeValidator) returns (r: Response)
    requires db.Valid() && Strict(tv)
    modifies db
    ensures db.Valid() && db.sectors == old(db.sectors)
    ensures CheckParameters(CollaboratorSchema(), body, tv).Valid? ==> WellTyped(body)
    ensures !CheckParameters(CollaboratorSchema(), body, tv).Valid? ==>
              r == Rejection(CheckParameters(CollaboratorSchema(), body, tv)) && db.collaborators == old(db.collaborators)
    ensures CheckParameters(CollaboratorSchema(), body, tv).Valid? ==> UpdatedAsAccepted(old(db.collaborators), db.collaborators, db.sectors, number, body, r)
  {
    var verdict := CheckParameters(CollaboratorSchema(), body, tv);
    if !verdict.Valid? {
      return Rejection(verdict);
    }
    AcceptedWellTyped(body, tv);
    r := UpdateAccepted(db, number, body);
  }

  /** The outcome of an update whose body the validator accepted. A missing
      collaborator or an unknown `sector_name` leaves the table unchanged;
      otherwise every collaborator with that number takes the body's column
      values and the sector key of the first of them. */
  ghost predicate UpdatedAsAccepted(before: seq<Collaborator>, after: seq<Collaborator>, sectors: seq<SectorModel.Sector>,
                                    number: nat, body: Payload, r: Response)
    requires WellTyped(body)
  {
    && ((forall c :: c in before ==> c.details.collabNumber != number) ==>
          r == NotFound(number) && after == before)
    && ((exists c :: c in before && c.details.collabNumber == number)
        && (forall s :: s in sectors ==> s.name != SectorNameOf(body)) ==>
          r == UnknownSector(404, SectorNameOf(body)) && after == before)
    && ((exists s :: s in sectors && s.name == SectorNameOf(body)) ==>
          forall k :: FirstNumbered(before, number, k) ==>
            && r == Response(200, Object(body))
            && |after| == |before|
            && forall i :: 0 <= i < |after| ==>
                 after[i] == if before[i].details.collabNumber == number
                             then Collaborator(before[i].id, DetailsOf(body), before[k].sectorId)
                             else before[i])
  }

  /** A successful update leaves the first matching collaborator in the
      sector it was in, whatever sector the body names, and gives it the
      body's column values. */
  lemma UpdateKeepsSector(before: seq<Collaborator>, after: seq<Collaborator>, sectors: seq<SectorModel.Sector>,
                          number: nat, body: Payload, r: Response, k: nat)
    requires WellTyped(body) && UpdatedAsAccepted(before, after, sectors, number, body, r)
    requires FirstNumbered(before, number, k) && r.status == 200
    ensures k < |after| && after[k].sectorId == before[k].sectorId
    ensures after[k].id == before[k].id && after[k].details == DetailsOf(body)
  {
    assert before[k] in before;
    assert r != UnknownSector(404, SectorNameOf(body));
  }

  /** The update once the body is accepted: look the collaborator and the
      sector up, then patch with a copy of the body that trades `sector_name`
      for the collaborator's current `sector_id`. */
  method UpdateAccepted(db: Store, number: nat, body: Payload) returns (r: Response)
    requires db.Valid() && WellTyped(body)
    modifies db
    ensures db.Valid() && db.sectors == old(db.sectors)
    ensures UpdatedAsAccepted(old(db.collaborators), db.collaborators, db.sectors, number, body, r)
  {
    var found := FindCollaborator(db.collaborators, number);
    if found.None? {
      return NotFound(number);
    }
    var sectorName := SectorNameOf(body);
    if FindSector(db.sectors, sectorName).None? {
      return UnknownSector(404, sectorName);
    }
    var current := db.collaborators[found.value];
    assert current in db.collaborators;
    PatchMatching(db, number, body, current.sectorId);
    r := Response(200, Object(body));
    forall k | FirstNumbered(old(db.collaborators), number, k) ensures k == found.value {}
  }

  /** Copy the body, trade its `sector_name` for `sector_id`,
      and patch every collaborator with that number. */
  method PatchMatching(db: Store, number: nat, body: Payload, sectorId: nat)
    requires db.Valid() && WellTyped(body) && sectorId in SectorIds(db.sectors)
    modifies db
    ensures db.Valid() && db.sectors == old(db.sectors)
    ensures |db.collaborators| == |old(db.collaborators)|
    ensures forall i :: 0 <= i < |db.collaborators| ==>
              db.collaborators[i] == if old(db.collaborators)[i].details.collabNumber == number
                                     then Collaborator(old(db.collaborators)[i].id, DetailsOf(body), sectorId)
                                     else old(db.collaborators)[i]
  {
    var patch := body;
    patch := Without(patch, "sector_name");
    patch := Put(patch, "sector_id", JInt(sectorId));
    PatchLookups(body, sectorId);
    db.UpdateCollaborators(number, patch);
    forall i | 0 <= i < |old(db.collaborators)| && old(db.collaborators)[i].details.collabNumber == number
      ensures PatchCollaborator(old(db.collaborators)[i], patch) == Collaborator(old(db.collaborators)[i].id, DetailsOf(body), sectorId)
    {
      PatchWritesBody(old(db.collaborators)[i], body, sectorId);
    }
  }

  /** DELETE /collaborators/delete/<number>: removes the first collaborator
      with that number and nothing else. */
  method Delete(db: Store, number: nat) returns (r: Response)
    requires db.Valid()
    modifies db
    ensures db.Valid() && db.sectors == old(db.sectors)
    ensures (forall c :: c in old(db.collaborators) ==> c.details.collabNumber != number) ==>
              r == NotFound(number) && db.collaborators == old(db.collaborators)
    ensures forall k :: FirstNumbered(old(db.collaborators), number, k) ==>
              && r == Message(200, "Message", "Successfully deleted")
              && db.collaborators == old(db.collaborators)[..k] + old(db.collaborators)[k + 1..]
  {
    var found := FindCollaborator(db.collaborators, number);
    if found.None? {
      return NotFound(number);
    }
    ghost var rows := db.collaborators;
    db.DeleteCollaboratorAt(found.value);
    r := Message(200, "Message", "Successfully deleted");
    forall k | FirstNumbered(rows, number, k) ensures k == found.value {}
  }
}
