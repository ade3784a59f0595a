/** Resume lookup across the two ways a resume can be stored: the binary field of the
    `candidates` collection, tried first, and a GridFS file named by a record of the
    `candidates_gridfs` collection. Only active records are ever considered; the first active
    record with the candidate id is the one `filter(...).first()` yields. */
module GridFsLookup {
  import opened Wrappers
  import opened Candidates

  /** The fields of a `CandidateGridFS` record the lookups read. */
  datatype GridFsCandidate = GridFsCandidate(
    candidateId: string, isActive: bool, resumeFilename: string, resumeGridfsId: string,
    resumeContentType: string, resumeSize: string)

  /** The GridFS files by id; an id without an entry is one `get_file` cannot fetch. */
  type Files = map<string, seq<byte>>

  /** `CandidateGridFS.objects.filter(candidate_id=..., is_active=True).first()`. */
  function FirstActiveGridFs(gdocs: seq<GridFsCandidate>, candidateId: string): (r: Option<GridFsCandidate>)
    ensures r.None? <==> forall i :: 0 <= i < |gdocs| ==> !(gdocs[i].candidateId == candidateId && gdocs[i].isActive)
    ensures r.Some? ==> r.value in gdocs && r.value.candidateId == candidateId && r.value.isActive
  {
    FirstWhere(gdocs, (g: GridFsCandidate) => g.candidateId == candidateId && g.isActive)
  }

  /** `get_resume_content`. */
  function ResumeContent(docs: seq<Candidate>, gdocs: seq<GridFsCandidate>, files: Files, candidateId: string)
    : Option<seq<byte>>
  {
    var binary := GetActive(docs, candidateId);
    if binary.Some? && binary.value.resumeData != [] then Some(binary.value.resumeData)
    else
      var g := FirstActiveGridFs(gdocs, candidateId);
      if g.Some? && g.value.resumeGridfsId != "" && g.value.resumeGridfsId in files then
        Some(files[g.value.resumeGridfsId])
      else None
  }

  datatype StorageType = BinaryField | GridFs

  /** The dictionaries `get_candidate_resume_info` returns: the stored file's details with
      `has_resume` True, or `{'has_resume': False, 'storage_type': None}`. */
  datatype ResumeInfo =
    | Stored(filename: string, size: string, contentType: string, storage: StorageType)
    | NoResume

  /** `get_candidate_resume_info`. */
  function ResumeInfoOf(docs: seq<Candidate>, gdocs: seq<GridFsCandidate>, candidateId: string): ResumeInfo {
    var binary := GetActive(docs, candidateId);
    if binary.Some? && binary.value.resumeData != [] then
      Stored(binary.value.resumeFilename, binary.value.resumeSize, binary.value.resumeContentType, BinaryField)
    else
      var g := FirstActiveGridFs(gdocs, candidateId);
      if g.Some? && g.value.resumeGridfsId != "" then
        Stored(g.value.resumeFilename, g.value.resumeSize, g.value.resumeContentType, GridFs)
      else NoResume
  }

  /** The binary field wins: an active candidate with resume bytes yields those bytes and is
      reported as `binary_field`, whatever GridFS holds. */
  lemma {:induction false} BinaryFieldFirst(docs: seq<Candidate>, gdocs: seq<GridFsCandidate>, files: Files, k: nat)
    requires Inv(docs) && k < |docs| && docs[k].isActive && docs[k].resumeData != []
    ensures ResumeContent(docs, gdocs, files, docs[k].candidateId) == Some(docs[k].resumeData)
    ensures ResumeInfoOf(docs, gdocs, docs[k].candidateId) ==
              Stored(docs[k].resumeFilename, docs[k].resumeSize, docs[k].resumeContentType, BinaryField)
  {
    GetFindsTheMatch(docs, k);
  }

  /** Without binary resume bytes, the first active GridFS record with a file id decides: its
      file's bytes when the file can be fetched, and otherwise nothing. */
  lemma {:induction false} GridFsSecond(docs: seq<Candidate>, gdocs: seq<GridFsCandidate>, files: Files, candidateId: string)
    requires GetActive(docs, candidateId).None? || GetActive(docs, candidateId).value.resumeData == []
    ensures var g := FirstActiveGridFs(gdocs, candidateId);
      && (g.Some? && g.value.resumeGridfsId in files && g.value.resumeGridfsId != "" ==>
            ResumeContent(docs, gdocs, files, candidateId) == Some(files[g.value.resumeGridfsId]))
      && (g.Some? && g.value.resumeGridfsId != "" ==>
            ResumeInfoOf(docs, gdocs, candidateId).Stored? && ResumeInfoOf(docs, gdocs, candidateId).storage == GridFs)
      && (g.None? || g.value.resumeGridfsId == "" ==>
            ResumeContent(docs, gdocs, files, candidateId).None? && ResumeInfoOf(docs, gdocs, candidateId) == NoResume)
  {
  }

  /** Inactive records are invisible: a collection holding no active record with the id gives
      no content and no resume. */
  lemma {:induction false} InactiveIgnored(docs: seq<Candidate>, gdocs: seq<GridFsCandidate>, files: Files, candidateId: string)
    requires forall i :: 0 <= i < |docs| ==> docs[i].candidateId == candidateId ==> !docs[i].isActive
    requires forall i :: 0 <= i < |gdocs| ==> gdocs[i].candidateId == candidateId ==> !gdocs[i].isActive
    ensures ResumeContent(docs, gdocs, files, candidateId).None?
    ensures ResumeInfoOf(docs, gdocs, candidateId) == NoResume
  {
  }

  /** The two lookups agree on where a resume is: content is found only where the info reports a
      resume, and binary content is reported as binary storage. The converse fails for a GridFS
      record whose file cannot be fetched, which the info still reports. */
  lemma {:induction false} ContentImpliesInfo(docs: seq<Candidate>, gdocs: seq<GridFsCandidate>, files: Files, candidateId: string)
    ensures ResumeContent(docs, gdocs, files, candidateId).Some? ==> ResumeInfoOf(docs, gdocs, candidateId).Stored?
    ensures ResumeInfoOf(docs, gdocs, candidateId) == NoResume ==> ResumeContent(docs, gdocs, files, candidateId).None?
    ensures ResumeInfoOf(docs, gdocs, candidateId).Stored? && ResumeInfoOf(docs, gdocs, candidateId).storage == BinaryField ==>
              ResumeContent(docs, gdocs, files, candidateId) == Some(GetActive(docs, candidateId).value.resumeData)
  {
  }

  /** An unfetchable GridFS file: without binary resume bytes, when the first active GridFS
      record names a file that cannot be fetched, the info reports that record's resume while
      the content is None. */
  lemma {:induction false} MissingFileReportedAnyway(docs: seq<Candidate>, gdocs: seq<GridFsCandidate>, files: Files,
                                                     candidateId: string)
    requires GetActive(docs, candidateId).None? || GetActive(docs, candidateId).value.resumeData == []
    ensures var g := FirstActiveGridFs(gdocs, candidateId);
      g.Some? && g.value.resumeGridfsId != "" && g.value.resumeGridfsId !in files ==>
        && ResumeInfoOf(docs, gdocs, candidateId) ==
             Stored(g.value.resumeFilename, g.value.resumeSize, g.value.resumeContentType, GridFs)
        && ResumeContent(docs, gdocs, files, candidateId).None?
  {
  }
}
