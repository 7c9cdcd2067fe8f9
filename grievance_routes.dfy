/** The grievance routes over an in-memory collection: list, create, get
    one, status update, file download and delete, each behind the
    middleware the router puts in front of it. The uploads directory is a
    set of file names. */
module GrievanceRoutes {
  import opened Common
  import opened Users
  import opened GrievanceModel
  import opened Query
  import opened Auth

  /** The URL prefix under which attachments are served. */
  const FilesRoute := "/api/grievances/files/"
  /** The start of the message a failed validation throws; its detail
      lists the failing paths. */
  const ValidationFailed := "Grievance validation failed"
  const AccessDenied := "Access denied"
  const FileNotFound := "File not found"

  /** A file the upload middleware has already written to the uploads
      directory under `filename`. */
  datatype Upload = Upload(filename: string, originalName: string, size: nat, mimetype: string)

  /** The entry the create route records for an upload. */
  function EntryFor(u: Upload): FileInput {
    FileInput(u.filename, u.originalName, FilesRoute + u.filename, u.size, u.mimetype)
  }

  function UploadNames(uploads: seq<Upload>): set<string> {
    set i | 0 <= i < |uploads| :: uploads[i].filename
  }

  function AttachmentNames(files: seq<FileEntry>): set<string> {
    set i | 0 <= i < |files| :: files[i].filename
  }

  /** `{ 'files.filename': filename }`: some attachment has that name. */
  predicate ListsFile(g: Grievance, filename: string) {
    exists j :: 0 <= j < |g.files| && g.files[j].filename == filename
  }

  /** The `forEach` of the create route: one entry per upload, in upload
      order. */
  method BuildEntries(uploads: seq<Upload>) returns (files: seq<FileInput>)
    ensures |files| == |uploads|
    ensures forall k :: 0 <= k < |uploads| ==> files[k] == EntryFor(uploads[k])
  {
    files := [];
    var i := 0;
    while i < |uploads|
      invariant 0 <= i <= |uploads|
      invariant |files| == i
      invariant forall k :: 0 <= k < i ==> files[k] == EntryFor(uploads[k])
    {
      files := files + [EntryFor(uploads[i])];
      i := i + 1;
    }
  }

  /** What `new Grievance({ title, description, files, createdBy })` is
      given for a request: no status, the caller as owner. */
  function DraftFor(caller: UserView, title: string, description: string, uploads: seq<Upload>): (d: Draft)
    ensures d.status.None? && d.createdBy == Some(caller.id)
    ensures |d.files| == |uploads| && forall i :: 0 <= i < |uploads| ==> d.files[i] == EntryFor(uploads[i])
  {
    Draft(title, description, None, seq(|uploads|, i requires 0 <= i < |uploads| => EntryFor(uploads[i])), Some(caller.id))
  }

  /** The record a successful create stores keeps the uploads in order,
      serves each under the files route, belongs to the caller, starts
      `open`, and was created and last updated at `now`. */
  lemma CreatedRecord(caller: UserView, title: string, description: string, uploads: seq<Upload>, id: GrievanceId, now: Time)
    ensures var g := Instantiate(DraftFor(caller, title, description, uploads), id, now);
      && g.createdBy == caller.id && g.status == Some("open") && g.createdAt == now && g.updatedAt == now
      && |g.files| == |uploads|
      && forall i :: 0 <= i < |uploads| ==>
           g.files[i].filename == uploads[i].filename && g.files[i].path == FilesRoute + uploads[i].filename
           && g.files[i].uploadedAt == now
  {
  }

  /** A page of the sorted matching records holds the matching records
      from `skip` on, up to `limit` of them, each a stored record the rule
      selects. */
  lemma PageOfMatching(records: seq<Grievance>, caller: UserView, status: string, skip: nat, limit: nat)
    ensures var page := Window(SortNewestFirst(MatchingRecords(records, caller, status)), skip, limit);
      var n := |MatchingRecords(records, caller, status)|;
      && |page| <= n
      && |page| == (if skip >= n then 0 else Min(limit, n - skip))
      && forall i :: 0 <= i < |page| ==> page[i] in records && Selected(caller, status, page[i])
  {
    var matching := MatchingRecords(records, caller, status);
    var sorted := SortNewestFirst(matching);
    var page := Window(sorted, skip, limit);
    assert |sorted| == |multiset(sorted)| == |matching|;
    forall i | 0 <= i < |page|
      ensures page[i] in records && Selected(caller, status, page[i])
    {
      assert page[i] == sorted[skip + i];
      assert page[i] in multiset(sorted);
      assert page[i] in matching;
    }
  }

  /** Removing the record found for an id keeps ids distinct and below
      the next id, and leaves no record with that id. */
  lemma RemovedRecord(records: seq<Grievance>, k: nat, nextId: nat)
    requires k < |records|
    requires forall i, j :: 0 <= i < j < |records| ==> records[i].id != records[j].id
    requires forall i :: 0 <= i < |records| ==> records[i].id < nextId
    ensures var rest := records[..k] + records[k + 1..];
      && (forall i, j :: 0 <= i < j < |rest| ==> rest[i].id != rest[j].id)
      && (forall i :: 0 <= i < |rest| ==> rest[i].id < nextId)
      && FindGrievance(rest, records[k].id).None?
  {
    var rest := records[..k] + records[k + 1..];
    assert forall j :: 0 <= j < |rest| ==> rest[j] == if j < k then records[j] else records[j + 1];
    assert forall j :: 0 <= j < |rest| ==> rest[j].id != records[k].id;
  }

  /** Appending a record under the next id keeps ids distinct and below
      the (advanced) next id, and the record is found under its id at the
      end. */
  lemma AppendedRecord(records: seq<Grievance>, nextId: nat, g: Grievance)
    requires forall i, j :: 0 <= i < j < |records| ==> records[i].id != records[j].id
    requires forall i :: 0 <= i < |records| ==> records[i].id < nextId
    requires g.id == nextId
    ensures var all := records + [g];
      && (forall i, j :: 0 <= i < j < |all| ==> all[i].id != all[j].id)
      && (forall i :: 0 <= i < |all| ==> all[i].id < nextId + 1)
      && FindGrievance(all, g.id) == Some(|records|)
  {
    var all := records + [g];
    assert forall i :: 0 <= i < |records| ==> all[i] == records[i];
    FindFirstIs(all, (x: Grievance) => x.id == g.id, |records|);
  }

  /** The uploads directory. */
  class UploadDir {
    var files: set<string>

    constructor (files: set<string>)
      ensures this.files == files
    {
      this.files := files;
    }

    /** `fs.unlinkSync` inside a `try` whose `catch` only logs: a missing
        file throws and is ignored, so either way the name is gone. */
    method Unlink(name: string)
      modifies this
      ensures files == old(files) - {name}
    {
      files := files - {name};
    }

    /** The cleanup in the `catch` of create: every upload of the request
        is unlinked. */
    method RemoveUploads(uploads: seq<Upload>)
      modifies this
      ensures files == old(files) - UploadNames(uploads)
    {
      var j := 0;
      while j < |uploads|
        invariant 0 <= j <= |uploads|
        invariant files == old(files) - UploadNames(uploads[..j])
      {
        Unlink(uploads[j].filename);
        assert UploadNames(uploads[..j + 1]) == UploadNames(uploads[..j]) + {uploads[j].filename} by {
          assert forall k :: 0 <= k < j ==> uploads[..j + 1][k] == uploads[..j][k];
        }
        j := j + 1;
      }
      assert uploads[..j] == uploads;
    }

    /** The cleanup of delete: every attachment still on disk is
        unlinked. */
    method RemoveAttachments(entries: seq<FileEntry>)
      modifies this
      ensures files == old(files) - AttachmentNames(entries)
    {
      var i := 0;
      while i < |entries|
        invariant 0 <= i <= |entries|
        invariant files == old(files) - AttachmentNames(entries[..i])
      {
        if entries[i].filename in files {
          Unlink(entries[i].filename);
        }
        assert AttachmentNames(entries[..i + 1]) == AttachmentNames(entries[..i]) + {entries[i].filename} by {
          assert forall j :: 0 <= j < i ==> entries[..i + 1][j] == entries[..i][j];
        }
        i := i + 1;
      }
      assert entries[..i] == entries;
    }
  }

  class GrievanceStore {
    var records: seq<Grievance>
    var nextId: nat

    /** Ids are unique and every id was handed out before. */
    ghost predicate Valid()
      reads this
    {
      && (forall i, j :: 0 <= i < j < |records| ==> records[i].id != records[j].id)
      && (forall i :: 0 <= i < |records| ==> records[i].id < nextId)
    }

    constructor ()
      ensures Valid() && records == [] && nextId == 0
    {
      records := [];
      nextId := 0;
    }

    /** GET /: the caller's page of the records the status filter selects,
        newest first, and their total counted by a separate query over the
        same filter. */
    method List(caller: UserView, status: string, limitParam: Option<int>, pageParam: Option<int>) returns (r: ListReply)
      ensures r.limit == ClampLimit(limitParam) && r.page == ClampPage(pageParam)
      ensures r.total == |MatchingRecords(records, caller, status)|
      ensures r.list == Window(SortNewestFirst(MatchingRecords(records, caller, status)), SkipFor(r.page, r.limit), r.limit)
      ensures |r.list| <= r.limit && |r.list| <= r.total
      ensures |r.list| == if SkipFor(r.page, r.limit) >= r.total then 0 else Min(r.limit, r.total - SkipFor(r.page, r.limit))
      ensures forall i :: 0 <= i < |r.list| ==> r.list[i] in records && Selected(caller, status, r.list[i])
    {
      var limit := ClampLimit(limitParam);
      var page := ClampPage(pageParam);
      var skip := SkipFor(page, limit);
      var filter := BuildFilter(caller, status);
      var found := Filter(records, (g: Grievance) => Matches(filter, g));
      var total := Count(records, (g: Grievance) => Matches(filter, g));
      MatchingIsFiltered(records, filter, caller, status);
      assert found == MatchingRecords(records, caller, status) && total == |found|;
      var list := Window(SortNewestFirst(found), skip, limit);
      PageOfMatching(records, caller, status, skip, limit);
      r := ListReply(list, total, page, limit);
    }

    /** POST /: build the file entries in upload order and save a new
        document owned by the caller. When validation or the store fails,
        every upload is removed from disk, the collection is untouched and
        the answer is 400. */
    method Create(disk: UploadDir, caller: UserView, title: string, description: string, uploads: seq<Upload>,
                  now: Time, storeError: Option<string>) returns (r: Response<Grievance>)
      requires Valid()
      modifies this, disk
      ensures Valid()
      ensures var d := DraftFor(caller, title, description, uploads);
        Validates(d) && storeError.None? ==>
          var g := Instantiate(d, old(nextId), now);
          && records == old(records) + [g] && nextId == old(nextId) + 1
          && disk.files == old(disk.files)
          && r == Success(201, g)
          && FindGrievance(records, g.id) == Some(|old(records)|)
      ensures var d := DraftFor(caller, title, description, uploads);
        !(Validates(d) && storeError.None?) ==>
          && records == old(records) && nextId == old(nextId)
          && disk.files == old(disk.files) - UploadNames(uploads)
          && r == Failure(400, if !Validates(d) then ValidationFailed else storeError.value)
    {
      var files := BuildEntries(uploads);
      var draft := Draft(title, description, None, files, Some(caller.id));
      assert draft == DraftFor(caller, title, description, uploads);
      if Validates(draft) && storeError.None? {
        var doc := new Document(Instantiate(draft, nextId, now));
        doc.PreSave(now);
        var g := doc.record;
        AppendedRecord(records, nextId, g);
        records := records + [g];
        nextId := nextId + 1;
        r := Success(201, g);
      } else {
        disk.RemoveUploads(uploads);
        r := Failure(400, if !Validates(draft) then ValidationFailed else storeError.value);
      }
    }

    /** GET /:id behind the ownership gate: 404 for an unknown id, 403 for
        a record the caller may not see, otherwise the record. */
    method GetOne(caller: UserView, id: GrievanceId) returns (r: Response<Grievance>)
      ensures FindGrievance(records, id).None? ==> r == Failure(404, GrievanceNotFound)
      ensures r.Success? <==>
        FindGrievance(records, id).Some? && Visible(caller, records[FindGrievance(records, id).value])
      ensures r.Success? ==> r == Success(200, records[FindGrievance(records, id).value])
      ensures r.Failure? && FindGrievance(records, id).Some? ==> r == Failure(403, OwnGrievancesOnly)
    {
      var gate := AuthorizeOwnerOrAdmin(records, id, caller);
      if gate.Halt? {
        return Failure(gate.status, gate.error);
      }
      OwnershipGateIsVisibility(records, id, caller);
      var k := FindGrievance(records, id).value;
      r := Success(200, records[k]);
    }

    /** PATCH /:id/status behind `authorize('admin')`: the status is
        written as given (no enum check on this path) together with
        `updatedAt`; nothing else changes. */
    method UpdateStatus(caller: UserView, id: GrievanceId, newStatus: Option<string>, now: Time) returns (r: Response<Grievance>)
      requires Valid()
      modifies this
      ensures Valid() && nextId == old(nextId)
      ensures caller.role != AdminRole ==>
        r == Failure(403, InsufficientPermissions) && records == old(records)
      ensures caller.role == AdminRole && FindGrievance(old(records), id).None? ==>
        r == Failure(404, GrievanceNotFound) && records == old(records)
      ensures caller.role == AdminRole && FindGrievance(old(records), id).Some? ==>
        var k := FindGrievance(old(records), id).value;
        && records == old(records)[k := old(records)[k].(status := newStatus, updatedAt := now)]
        && r == Success(200, records[k])
    {
      var gate := Authorize({AdminRole}, Some(caller));
      if gate.Halt? {
        return Failure(gate.status, gate.error);
      }
      var found := FindGrievance(records, id);
      if found.None? {
        return Failure(404, GrievanceNotFound);
      }
      var k := found.value;
      records := records[k := records[k].(status := newStatus, updatedAt := now)];
      r := Success(200, records[k]);
    }

    /** GET /files/:filename: 404 unless the file is on disk and some
        record lists it (both checked before ownership), 403 unless the
        first such record is visible to the caller, otherwise the file. */
    method FetchFile(disk: UploadDir, caller: UserView, filename: string) returns (r: Response<string>)
      ensures filename !in disk.files ==> r == Failure(404, FileNotFound)
      ensures FindFirst(records, (g: Grievance) => ListsFile(g, filename)).None? ==> r == Failure(404, FileNotFound)
      ensures r.Success? <==>
        && filename in disk.files
        && FindFirst(records, (g: Grievance) => ListsFile(g, filename)).Some?
        && Visible(caller, records[FindFirst(records, (g: Grievance) => ListsFile(g, filename)).value])
      ensures r.Success? ==> r == Success(200, filename)
      ensures r.Failure? && filename in disk.files && FindFirst(records, (g: Grievance) => ListsFile(g, filename)).Some? ==>
        r == Failure(403, AccessDenied)
    {
      if filename !in disk.files {
        return Failure(404, FileNotFound);
      }
      var found := FindFirst(records, (g: Grievance) => ListsFile(g, filename));
      if found.None? {
        return Failure(404, FileNotFound);
      }
      var g := records[found.value];
      if caller.role != AdminRole && g.createdBy != caller.id {
        return Failure(403, AccessDenied);
      }
      r := Success(200, filename);
    }

    /** DELETE /:id behind the ownership gate: refused with 404 or 403 with
        nothing changed, otherwise the attachments still on disk are
        unlinked and exactly that record is removed. */
    method Delete(disk: UploadDir, caller: UserView, id: GrievanceId) returns (r: Response<bool>)
      requires Valid()
      modifies this, disk
      ensures Valid() && nextId == old(nextId)
      ensures FindGrievance(old(records), id).None? ==>
        r == Failure(404, GrievanceNotFound) && records == old(records) && disk.files == old(disk.files)
      ensures FindGrievance(old(records), id).Some? && !Visible(caller, old(records)[FindGrievance(old(records), id).value]) ==>
        r == Failure(403, OwnGrievancesOnly) && records == old(records) && disk.files == old(disk.files)
      ensures FindGrievance(old(records), id).Some? && Visible(caller, old(records)[FindGrievance(old(records), id).value]) ==>
        var k := FindGrievance(old(records), id).value;
        && records == old(records)[..k] + old(records)[k + 1..]
        && disk.files == old(disk.files) - AttachmentNames(old(records)[k].files)
        && r == Success(200, true)
        && FindGrievance(records, id).None?
    {
      var gate := AuthorizeOwnerOrAdmin(records, id, caller);
      if gate.Halt? {
        if FindGrievance(records, id).Some? {
          OwnershipGateIsVisibility(records, id, caller);
        }
        return Failure(gate.status, gate.error);
      }
      OwnershipGateIsVisibility(records, id, caller);
      var k := FindGrievance(records, id).value;
      disk.RemoveAttachments(records[k].files);
      RemovedRecord(records, k, nextId);
      records := records[..k] + records[k + 1..];
      r := Success(200, true);
    }
  }
}
