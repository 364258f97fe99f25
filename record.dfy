/** The patient query document (`Record` model) with its attachments. */
module RecordSchema {
  import opened Common

  datatype RecordStatus = Pending | Processing | Resolved | Completed | Failed

  /** The string the schema's `enum` stores for each status. */
  function StatusName(s: RecordStatus): string {
    match s
    case Pending => "pending"
    case Processing => "processing"
    case Resolved => "resolved"
    case Completed => "completed"
    case Failed => "failed"
  }

  /** Membership in `['pending', 'processing', 'resolved', 'completed', 'failed']`,
      returning the status named. */
  function ParseStatus(x: string): (r: Option<RecordStatus>)
    ensures r.Some? <==> x in {"pending", "processing", "resolved", "completed", "failed"}
    ensures r.Some? ==> StatusName(r.value) == x
  {
    if x == "pending" then Some(Pending)
    else if x == "processing" then Some(Processing)
    else if x == "resolved" then Some(Resolved)
    else if x == "completed" then Some(Completed)
    else if x == "failed" then Some(Failed)
    else None
  }

  lemma ParseStatusName(s: RecordStatus)
    ensures ParseStatus(StatusName(s)) == Some(s)
  {
  }

  /** An attachment entry. `url` is not a schema path: stored attachments
      never carry it, and only the listing handler adds it. */
  datatype Attachment = Attachment(
    filename: Option<string>,
    gridFsId: Option<string>,
    mimeType: Option<string>,
    size: Option<int>,
    kind: Option<string>,
    url: Option<string>)

  datatype Record = Record(
    id: Id,
    userId: Id,
    queryNumber: Option<string>,
    phone: Option<string>,
    summary: Option<string>,
    details: Option<string>,
    attachments: seq<Attachment>,
    doctorResponse: Option<string>,
    doctorName: Option<string>,
    doctorDetails: Option<string>,
    status: RecordStatus,
    createdAt: int)

  predicate AsStored(r: Record) {
    forall i :: 0 <= i < |r.attachments| ==> r.attachments[i].url.None?
  }

  /** `Record.create(...)` as the intake flow calls it: `status` defaults to
      pending, `createdAt` comes from the timestamps option, and an attachment
      keeps only the schema's paths. */
  function NewRecord(
    id: Id, userId: Id, queryNumber: Option<string>, phone: Option<string>,
    summary: Option<string>, details: Option<string>, attachments: seq<Attachment>,
    status: Option<RecordStatus>, now: int): (r: Record)
    ensures AsStored(r)
    ensures r.id == id && r.userId == userId && r.createdAt == now
    ensures status.None? ==> r.status == Pending
    ensures status.Some? ==> r.status == status.value
    ensures |r.attachments| == |attachments|
    ensures forall i :: 0 <= i < |attachments| ==> r.attachments[i] == attachments[i].(url := None)
    ensures r.doctorResponse.None? && r.doctorName.None? && r.doctorDetails.None?
  {
    Record(id, userId, queryNumber, phone, summary, details,
      seq(|attachments|, i requires 0 <= i < |attachments| => attachments[i].(url := None)),
      None, None, None,
      if status.Some? then status.value else Pending,
      now)
  }
}
