/** The appointment handlers `getAppointments` and `updateStatus`. */
module AppointmentController {
  import opened Common
  import opened Ordering
  import opened Collection
  import opened AppointmentSchema

  function CreatedAt(a: Appointment): int {
    a.createdAt
  }

  /** The documents with the given ids, in the order of `ids`. */
  function Shown(appointments: map<Id, Appointment>, ids: seq<Id>): (listed: seq<Appointment>)
    requires forall i :: 0 <= i < |ids| ==> ids[i] in appointments
    ensures |listed| == |ids|
    ensures forall i :: 0 <= i < |ids| ==> listed[i] == appointments[ids[i]]
  {
    seq(|ids|, i requires 0 <= i < |ids| => appointments[ids[i]])
  }

  /** `getAppointments`: it reads no query parameter, and lists every
      appointment, each once, newest first. */
  function GetAppointments(appointments: map<Id, Appointment>, limit: nat): (listed: seq<Appointment>)
    requires forall k :: k in appointments ==> appointments[k].id == k && k < limit
    ensures forall i, j :: 0 <= i < j < |listed| ==> listed[i].createdAt >= listed[j].createdAt
    ensures forall i :: 0 <= i < |listed| ==> listed[i].id in appointments && listed[i] == appointments[listed[i].id]
    ensures forall k :: k in appointments ==> appointments[k] in listed
    ensures forall i, j :: 0 <= i < j < |listed| ==> listed[i].id != listed[j].id
  {
    var ids := IdsBelow(appointments, limit);
    var sorted := SortNewestFirst(Shown(appointments, ids), CreatedAt);
    ListingFacts(appointments, limit, ids, sorted);
    sorted
  }

  lemma ListingFacts(appointments: map<Id, Appointment>, limit: nat, ids: seq<Id>, sorted: seq<Appointment>)
    requires forall k :: k in appointments ==> appointments[k].id == k && k < limit
    requires forall k :: k in ids <==> k in appointments && k < limit
    requires forall i, j :: 0 <= i < j < |ids| ==> ids[i] < ids[j]
    requires multiset(sorted) == multiset(Shown(appointments, ids))
    ensures forall i :: 0 <= i < |sorted| ==> sorted[i].id in appointments && sorted[i] == appointments[sorted[i].id]
    ensures forall k :: k in appointments ==> appointments[k] in sorted
    ensures forall i, j :: 0 <= i < j < |sorted| ==> sorted[i].id != sorted[j].id
  {
    var shown := Shown(appointments, ids);
    forall i | 0 <= i < |shown| ensures shown[i].id == ids[i] {
      assert ids[i] in ids;
    }
    assert Distinct(shown) by {
      forall i, j | 0 <= i < j < |shown| ensures shown[i] != shown[j] {
        assert shown[i].id == ids[i] < ids[j] == shown[j].id;
      }
    }
    PermutationKeepsDistinct(sorted, shown);
    forall i | 0 <= i < |sorted| ensures sorted[i].id in appointments && sorted[i] == appointments[sorted[i].id] {
      assert sorted[i] in multiset(shown);
      var j :| 0 <= j < |shown| && shown[j] == sorted[i];
      assert ids[j] in ids;
    }
    forall k | k in appointments ensures appointments[k] in sorted {
      assert k in ids;
      var j :| 0 <= j < |ids| && ids[j] == k;
      assert shown[j] in multiset(sorted);
    }
    forall i, j | 0 <= i < j < |sorted| ensures sorted[i].id != sorted[j].id {
      assert sorted[i] != sorted[j];
      assert sorted[i] == appointments[sorted[i].id];
      assert sorted[j] == appointments[sorted[j].id];
    }
  }

  /** The appointment collection. */
  class AppointmentStore {
    var appointments: map<Id, Appointment>
    var nextId: Id

    ghost predicate Valid()
      reads this
    {
      forall k :: k in appointments ==> appointments[k].id == k && k < nextId
    }

    constructor ()
      ensures Valid() && appointments == map[]
    {
      appointments, nextId := map[], 0;
    }

    /** The intake flow's `Appointment.create(...)`, which lies outside the handlers. */
    method Add(userId: Id, fullName: Option<string>, mobile: Option<string>, age: Option<int>,
               problem: Option<string>, preferredDate: Option<int>, preferredTime: Option<string>,
               status: Option<AppointmentStatus>, now: int) returns (id: Id)
      requires Valid()
      modifies this
      ensures Valid()
      ensures id !in old(appointments)
      ensures appointments == old(appointments)[id :=
        NewAppointment(id, userId, fullName, mobile, age, problem, preferredDate, preferredTime, status, now)]
    {
      id := nextId;
      appointments := appointments[id :=
        NewAppointment(id, userId, fullName, mobile, age, problem, preferredDate, preferredTime, status, now)];
      nextId := nextId + 1;
    }

    /** `updateStatus`: a status outside the four names, or none, is refused;
        otherwise the appointment with that id takes the new status, whatever
        status it had, and nothing else changes. */
    method UpdateStatus(id: Id, status: Option<string>) returns (r: Reply<Appointment>)
      requires Valid()
      modifies this
      ensures Valid()
      ensures nextId == old(nextId)
      ensures status.None? || ParseStatus(status.value).None? ==>
        r == Failure(400, "invalid status") && appointments == old(appointments)
      ensures status.Some? && ParseStatus(status.value).Some? && id !in old(appointments) ==>
        r == Failure(404, "appointment not found") && appointments == old(appointments)
      ensures status.Some? && ParseStatus(status.value).Some? && id in old(appointments) ==>
        && r == Success(200, old(appointments)[id].(status := ParseStatus(status.value).value))
        && appointments == old(appointments)[id := r.value]
      ensures r.Success? && old(appointments)[id].status == r.value.status ==> appointments == old(appointments)
    {
      if status.None? || ParseStatus(status.value).None? {
        return Failure(400, "invalid status");
      }
      if id !in appointments {
        return Failure(404, "appointment not found");
      }
      var updated := appointments[id].(status := ParseStatus(status.value).value);
      appointments := appointments[id := updated];
      r := Success(200, updated);
    }
  }
}
