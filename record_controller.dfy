/** The record handlers `getRecords` and `updateStatus`. */
module RecordController {
  import opened Common
  import opened Text
  import opened Ordering
  import opened Collection
  import opened RecordSchema

  /** The query string of `GET /records`. `userId` is `None` when absent or empty. */
  datatype Query = Query(userId: Option<Id>, status: Option<string>, excludeStatus: Option<string>)

  /** The `status` part of the MongoDB query object. */
  datatype StatusCondition = AnyStatus | In(names: seq<string>) | NotIn(names: seq<string>)

  /** The MongoDB query object the handler builds. */
  datatype Filter = Filter(userId: Option<Id>, status: StatusCondition)

  /** The query object: a `userId` constraint when one is given; `$in` of the
      comma-separated `status` when it is given, otherwise `$nin` of the
      comma-separated `excludeStatus` when that is given. */
  function BuildFilter(q: Query): (f: Filter)
    ensures f.userId == q.userId
    ensures Truthy(q.status) ==> f.status == In(Split(q.status.value, ','))
    ensures !Truthy(q.status) && Truthy(q.excludeStatus) ==> f.status == NotIn(Split(q.excludeStatus.value, ','))
    ensures !Truthy(q.status) && !Truthy(q.excludeStatus) ==> f.status == AnyStatus
  {
    var status :=
      if Truthy(q.status) then In(Split(q.status.value, ','))
      else if Truthy(q.excludeStatus) then NotIn(Split(q.excludeStatus.value, ','))
      else AnyStatus;
    Filter(q.userId, status)
  }

  /** How the store evaluates the query object against a document. */
  predicate Matches(f: Filter, r: Record) {
    && (f.userId.Some? ==> r.userId == f.userId.value)
    && match f.status
       case AnyStatus => true
       case In(names) => StatusName(r.status) in names
       case NotIn(names) => StatusName(r.status) !in names
  }

  /** The records a query asks for: its owner when `userId` is given; a status
      among the listed ones when `status` is given, whatever `excludeStatus`
      says; otherwise a status outside `excludeStatus` when that is given. */
  predicate Selected(q: Query, r: Record) {
    && (q.userId.Some? ==> r.userId == q.userId.value)
    && (Truthy(q.status) ==> StatusName(r.status) in Split(q.status.value, ','))
    && (!Truthy(q.status) && Truthy(q.excludeStatus) ==> StatusName(r.status) !in Split(q.excludeStatus.value, ','))
  }

  lemma FilterSelects(q: Query, r: Record)
    ensures Matches(BuildFilter(q), r) <==> Selected(q, r)
  {
  }

  /** `{ ...att, url: att.gridFsId }`. */
  function WithUrl(a: Attachment): (b: Attachment)
    ensures b.url == a.gridFsId
    ensures b.(url := a.url) == a
  {
    a.(url := a.gridFsId)
  }

  /** The listing's view of a record: every attachment gains `url`, equal to
      its `gridFsId`; nothing else changes. */
  function WithUrls(r: Record): (v: Record)
    ensures v.id == r.id && v.createdAt == r.createdAt
    ensures v.(attachments := r.attachments) == r
    ensures |v.attachments| == |r.attachments|
    ensures forall i :: 0 <= i < |r.attachments| ==>
      v.attachments[i].url == r.attachments[i].gridFsId && v.attachments[i].(url := r.attachments[i].url) == r.attachments[i]
  {
    if |r.attachments| > 0 then
      r.(attachments := seq(|r.attachments|, i requires 0 <= i < |r.attachments| => WithUrl(r.attachments[i])))
    else r
  }

  function CreatedAt(r: Record): int {
    r.createdAt
  }

  /** The ids among `ids` whose documents match, in the order of `ids`. */
  function Chosen(records: map<Id, Record>, ids: seq<Id>, f: Filter): (cs: seq<Id>)
    requires forall i :: 0 <= i < |ids| ==> ids[i] in records
    requires forall i, j :: 0 <= i < j < |ids| ==> ids[i] < ids[j]
    ensures forall k :: k in cs <==> k in ids && Matches(f, records[k])
    ensures forall i, j :: 0 <= i < j < |cs| ==> cs[i] < cs[j]
    decreases |ids|
  {
    if ids == [] then []
    else
      var rest := Chosen(records, ids[1..], f);
      forall i | 0 <= i < |rest| ensures ids[0] < rest[i] {
        assert rest[i] in rest;
        var j :| 0 <= j < |ids[1..]| && ids[1..][j] == rest[i];
        assert ids[j + 1] == rest[i];
      }
      if Matches(f, records[ids[0]]) then [ids[0]] + rest else rest
  }

  /** The documents with the given ids, as the listing shows them. */
  function Shown(records: map<Id, Record>, ids: seq<Id>): (rs: seq<Record>)
    requires forall i :: 0 <= i < |ids| ==> ids[i] in records
    ensures |rs| == |ids|
    ensures forall i :: 0 <= i < |ids| ==> rs[i] == WithUrls(records[ids[i]])
  {
    seq(|ids|, i requires 0 <= i < |ids| => WithUrls(records[ids[i]]))
  }

  /** `getRecords`: the selected records, each once, as the listing shows
      them, newest first. */
  function GetRecords(records: map<Id, Record>, limit: nat, q: Query): (rs: seq<Record>)
    requires forall k :: k in records ==> records[k].id == k && k < limit
    ensures forall i, j :: 0 <= i < j < |rs| ==> rs[i].createdAt >= rs[j].createdAt
    ensures forall i :: 0 <= i < |rs| ==>
      rs[i].id in records && Selected(q, records[rs[i].id]) && rs[i] == WithUrls(records[rs[i].id])
    ensures forall k :: k in records && Selected(q, records[k]) ==> WithUrls(records[k]) in rs
    ensures forall i, j :: 0 <= i < j < |rs| ==> rs[i].id != rs[j].id
  {
    var ids := Chosen(records, IdsBelow(records, limit), BuildFilter(q));
    var sorted := SortNewestFirst(Shown(records, ids), CreatedAt);
    ListingFacts(records, limit, q, ids, sorted);
    sorted
  }

  lemma ListingFacts(records: map<Id, Record>, limit: nat, q: Query, ids: seq<Id>, sorted: seq<Record>)
    requires forall k :: k in records ==> records[k].id == k && k < limit
    requires forall k :: k in ids <==> k in records && k < limit && Matches(BuildFilter(q), records[k])
    requires forall i, j :: 0 <= i < j < |ids| ==> ids[i] < ids[j]
    requires multiset(sorted) == multiset(Shown(records, ids))
    ensures forall i :: 0 <= i < |sorted| ==>
      sorted[i].id in records && Selected(q, records[sorted[i].id]) && sorted[i] == WithUrls(records[sorted[i].id])
    ensures forall k :: k in records && Selected(q, records[k]) ==> WithUrls(records[k]) in sorted
    ensures forall i, j :: 0 <= i < j < |sorted| ==> sorted[i].id != sorted[j].id
  {
    var shown := Shown(records, ids);
    forall i | 0 <= i < |shown| ensures shown[i].id == ids[i] {
      assert shown[i] == WithUrls(records[ids[i]]);
    }
    assert Distinct(shown) by {
      forall i, j | 0 <= i < j < |shown| ensures shown[i] != shown[j] {
        assert shown[i].id == ids[i] < ids[j] == shown[j].id;
      }
    }
    PermutationKeepsDistinct(sorted, shown);
    forall i | 0 <= i < |sorted|
      ensures sorted[i].id in records && Selected(q, records[sorted[i].id]) && sorted[i] == WithUrls(records[sorted[i].id])
    {
      assert sorted[i] in multiset(shown);
      var j :| 0 <= j < |shown| && shown[j] == sorted[i];
      assert ids[j] in ids;
      FilterSelects(q, records[ids[j]]);
    }
    forall k | k in records && Selected(q, records[k]) ensures WithUrls(records[k]) in sorted {
      FilterSelects(q, records[k]);
      assert k in ids;
      var j :| 0 <= j < |ids| && ids[j] == k;
      assert shown[j] in multiset(sorted);
    }
    forall i, j | 0 <= i < j < |sorted| ensures sorted[i].id != sorted[j].id {
      assert sorted[i] != sorted[j];
      assert sorted[i] == WithUrls(records[sorted[i].id]);
      assert sorted[j] == WithUrls(records[sorted[j].id]);
    }
  }

  /** When `status` is given, `excludeStatus` makes no difference. */
  lemma StatusTakesPrecedence(records: map<Id, Record>, limit: nat, q: Query, excludeStatus: Option<string>)
    requires forall k :: k in records ==> records[k].id == k && k < limit
    requires Truthy(q.status)
    ensures GetRecords(records, limit, q) == GetRecords(records, limit, q.(excludeStatus := excludeStatus))
  {
  }

  /** With no query parameters, every record is listed. */
  lemma NoQueryListsAll(records: map<Id, Record>, limit: nat)
    requires forall k :: k in records ==> records[k].id == k && k < limit
    ensures forall k :: k in records ==> WithUrls(records[k]) in GetRecords(records, limit, Query(None, None, None))
  {
  }

  /** The `updateData` object: the status and the three response fields that are truthy. */
  datatype RecordUpdate = RecordUpdate(
    status: Option<RecordStatus>,
    doctorResponse: Option<string>,
    doctorName: Option<string>,
    doctorDetails: Option<string>)

  /** A field of `updateData`: set to the given value when that is truthy, absent otherwise. */
  predicate Written(field: Option<string>, given: Option<string>) {
    if Truthy(given) then field == given else field.None?
  }

  /** Validation of `status` and construction of `updateData`. */
  function BuildUpdate(status: Option<string>, doctorResponse: Option<string>,
                       doctorName: Option<string>, doctorDetails: Option<string>): (r: Reply<RecordUpdate>)
    ensures r.Failure? <==> Truthy(status) && ParseStatus(status.value).None?
    ensures r.Failure? ==> r == Failure(400, "invalid status")
    ensures r.Success? ==>
      && (r.value.status.Some? <==> Truthy(status))
      && (r.value.status.Some? ==> StatusName(r.value.status.value) == status.value)
      && Written(r.value.doctorResponse, doctorResponse)
      && Written(r.value.doctorName, doctorName)
      && Written(r.value.doctorDetails, doctorDetails)
  {
    if Truthy(status) && ParseStatus(status.value).None? then Failure(400, "invalid status")
    else
      Success(200, RecordUpdate(
        if Truthy(status) then ParseStatus(status.value) else None,
        if Truthy(doctorResponse) then doctorResponse else None,
        if Truthy(doctorName) then doctorName else None,
        if Truthy(doctorDetails) then doctorDetails else None))
  }

  /** `findByIdAndUpdate(id, updateData)` on one document: the fields present
      in `updateData` are set, every other field is kept. */
  function Apply(r: Record, u: RecordUpdate): (v: Record)
    ensures v.status == (if u.status.Some? then u.status.value else r.status)
    ensures v.doctorResponse == (if u.doctorResponse.Some? then u.doctorResponse else r.doctorResponse)
    ensures v.doctorName == (if u.doctorName.Some? then u.doctorName else r.doctorName)
    ensures v.doctorDetails == (if u.doctorDetails.Some? then u.doctorDetails else r.doctorDetails)
    ensures v.(status := r.status, doctorResponse := r.doctorResponse,
               doctorName := r.doctorName, doctorDetails := r.doctorDetails) == r
  {
    r.(status := if u.status.Some? then u.status.value else r.status,
       doctorResponse := if u.doctorResponse.Some? then u.doctorResponse else r.doctorResponse,
       doctorName := if u.doctorName.Some? then u.doctorName else r.doctorName,
       doctorDetails := if u.doctorDetails.Some? then u.doctorDetails else r.doctorDetails)
  }

  /** Sending the same update twice leaves the record as sending it once. */
  lemma ApplyIdempotent(r: Record, u: RecordUpdate)
    ensures Apply(Apply(r, u), u) == Apply(r, u)
  {
  }

  /** The record collection. */
  class RecordStore {
    var records: map<Id, Record>
    var nextId: Id

    ghost predicate Valid()
      reads this
    {
      forall k :: k in records ==> records[k].id == k && k < nextId && AsStored(records[k])
    }

    constructor ()
      ensures Valid() && records == map[]
    {
      records, nextId := map[], 0;
    }

    /** The intake flow's `Record.create(...)`, which lies outside the handlers. */
    method Add(userId: Id, queryNumber: Option<string>, phone: Option<string>, summary: Option<string>,
               details: Option<string>, attachments: seq<Attachment>, status: Option<RecordStatus>,
               now: int) returns (id: Id)
      requires Valid()
      modifies this
      ensures Valid()
      ensures id !in old(records)
      ensures records == old(records)[id := NewRecord(id, userId, queryNumber, phone, summary, details, attachments, status, now)]
    {
      id := nextId;
      records := records[id := NewRecord(id, userId, queryNumber, phone, summary, details, attachments, status, now)];
      nextId := nextId + 1;
    }

    /** `updateStatus`: validate `status`, then write the truthy fields into
        the record with that id and answer with the record as updated. */
    method UpdateStatus(id: Id, status: Option<string>, doctorResponse: Option<string>,
                        doctorName: Option<string>, doctorDetails: Option<string>) returns (r: Reply<Record>)
      requires Valid()
      modifies this
      ensures Valid()
      ensures nextId == old(nextId)
      ensures Truthy(status) && ParseStatus(status.value).None? ==>
        r == Failure(400, "invalid status") && records == old(records)
      ensures !(Truthy(status) && ParseStatus(status.value).None?) && id !in old(records) ==>
        r == Failure(404, "record not found") && records == old(records)
      ensures !(Truthy(status) && ParseStatus(status.value).None?) && id in old(records) ==>
        var before := old(records)[id];
        && r.Success? && r.code == 200
        && records == old(records)[id := r.value]
        && r.value.status == (if Truthy(status) then ParseStatus(status.value).value else before.status)
        && r.value.doctorResponse == (if Truthy(doctorResponse) then doctorResponse else before.doctorResponse)
        && r.value.doctorName == (if Truthy(doctorName) then doctorName else before.doctorName)
        && r.value.doctorDetails == (if Truthy(doctorDetails) then doctorDetails else before.doctorDetails)
        && r.value.(status := before.status, doctorResponse := before.doctorResponse,
                    doctorName := before.doctorName, doctorDetails := before.doctorDetails) == before
    {
      var update := BuildUpdate(status, doctorResponse, doctorName, doctorDetails);
      if update.Failure? {
        return Failure(update.code, update.error);
      }
      if id !in records {
        return Failure(404, "record not found");
      }
      var updated := Apply(records[id], update.value);
      records := records[id := updated];
      r := Success(200, updated);
    }
  }
}
