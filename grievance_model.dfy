/** The grievance schema: a record with its attached files, the required
    fields and defaults a validated save enforces, and the pre-save hook
    that refreshes `updatedAt`. */
module GrievanceModel {
  import opened Common

  /** One attachment: the stored (generated) file name, the client's name
      for it, the URL it is served under, its size and media type. */
  datatype FileEntry = FileEntry(filename: string, originalName: string, path: string, size: nat, mimetype: string, uploadedAt: Time)

  /** A stored grievance. `status` is a free string once stored (a status
      update runs no validators) and `None` stands for a missing or null
      field, which every query treats alike. */
  datatype Grievance = Grievance(
    id: GrievanceId,
    title: string,
    description: string,
    status: Option<string>,
    files: seq<FileEntry>,
    createdBy: UserId,
    createdAt: Time,
    updatedAt: Time)

  /** `Grievance.findById(id)`. */
  function FindGrievance(records: seq<Grievance>, id: GrievanceId): Option<nat> {
    FindFirst(records, (g: Grievance) => g.id == id)
  }

  /** The values of the status enum, and its default. */
  const Statuses: set<string> := {"open", "pending", "resolved", "rejected"}
  const DefaultStatus := "open"

  /** A file entry as the create route hands it to the model (no upload
      time yet: that field has a default). */
  datatype FileInput = FileInput(filename: string, originalName: string, path: string, size: nat, mimetype: string)

  /** What `new Grievance({ ... })` is given. A missing string is "", a
      missing status or owner is `None`. */
  datatype Draft = Draft(title: string, description: string, status: Option<string>, files: seq<FileInput>, createdBy: Option<UserId>)

  /** A file entry passes validation when every required string is
      present (Mongoose's `required` rejects the empty string); the size is
      always a number here. */
  predicate FileInputValid(f: FileInput) {
    f.filename != "" && f.originalName != "" && f.path != "" && f.mimetype != ""
  }

  /** The checks a validated save runs: title, description and owner are
      required, a given status must be one of the enum values, and every
      file entry must be complete. */
  predicate Validates(d: Draft) {
    && d.title != ""
    && d.description != ""
    && d.createdBy.Some?
    && (d.status.None? || d.status.value in Statuses)
    && forall i :: 0 <= i < |d.files| ==> FileInputValid(d.files[i])
  }

  function Attach(f: FileInput, now: Time): FileEntry {
    FileEntry(f.filename, f.originalName, f.path, f.size, f.mimetype, now)
  }

  /** The document a draft becomes, with the schema's defaults filled in:
      status `open`, and creation time for createdAt, updatedAt and every
      file's uploadedAt. */
  function Instantiate(d: Draft, id: GrievanceId, now: Time): (g: Grievance)
    requires d.createdBy.Some?
    ensures g.id == id && g.title == d.title && g.description == d.description
    ensures g.createdBy == d.createdBy.value
    ensures g.status == if d.status.None? then Some(DefaultStatus) else d.status
    ensures g.createdAt == now && g.updatedAt == now
    ensures |g.files| == |d.files|
    ensures forall i :: 0 <= i < |d.files| ==> g.files[i] == Attach(d.files[i], now)
  {
    Grievance(
      id, d.title, d.description,
      if d.status.None? then Some(DefaultStatus) else d.status,
      seq(|d.files|, i requires 0 <= i < |d.files| => Attach(d.files[i], now)),
      d.createdBy.value, now, now)
  }

  /** A document that passed validation carries a non-empty title and
      description, an enum status (the default when none was given) and
      complete file entries. */
  lemma ValidatedDocument(d: Draft, id: GrievanceId, now: Time)
    requires Validates(d)
    ensures var g := Instantiate(d, id, now);
      && g.title != "" && g.description != ""
      && g.status.Some? && g.status.value in Statuses
      && forall i :: 0 <= i < |g.files| ==>
           g.files[i].filename != "" && g.files[i].originalName != "" && g.files[i].path != ""
           && g.files[i].mimetype != "" && g.files[i].uploadedAt == now
  {
  }

  /** A Mongoose document: its record plus the two flags the pre-save hook
      reads. */
  class Document {
    var record: Grievance
    var isNew: bool
    var modified: bool

    /** `new Grievance(...)`: a new document, all of whose paths count as
        modified. */
    constructor (g: Grievance)
      ensures record == g && isNew && modified
    {
      record := g;
      isNew := true;
      modified := true;
    }

    /** The pre-save hook: only a modified document that is already stored
        gets `updatedAt` set to now; a new or unmodified one keeps it. No
        other field changes. */
    method PreSave(now: Time)
      modifies this
      ensures isNew == old(isNew) && modified == old(modified)
      ensures old(modified) && !old(isNew) ==> record == old(record).(updatedAt := now)
      ensures !(old(modified) && !old(isNew)) ==> record == old(record)
    {
      if modified && !isNew {
        record := record.(updatedAt := now);
      }
    }
  }
}
