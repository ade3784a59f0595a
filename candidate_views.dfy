/** The candidate endpoints: creation by a recruiter, candidate-id validation for the interview
    portal, resume upload and resume download. A response is its HTTP status and its body. */
module CandidateViews {
  import opened Wrappers
  import opened Candidates
  import opened Serializers
  import opened Strings
  import Http

  datatype Body =
    | ErrorBody(error: string)                               // {'error': ...}
    | FormErrors                                             // serializer.errors
    | CandidateBody(candidate: map<string, Field>)           // the serialized candidate
    | ListBody(candidates: seq<map<string, Field>>)
    | ValidBody(candidate: map<string, Field>)               // {'valid': True, 'candidate': ...}
    | InvalidBody(error: string)                             // {'valid': False, 'error': ...}
    | UploadedBody(message: string, candidate: map<string, Field>)
    | FileBody(data: seq<byte>, contentType: string, disposition: string, contentLength: string)

  datatype Response = Response(status: int, body: Body)

  /** The serialized form of a stored candidate. */
  function Rep(c: Candidate): map<string, Field> {
    Representation(Some(c)).value
  }

  /** The text of a save failure: the failing field of a validation error, or mongoengine's
      wording for a unique-index rejection. */
  function Detail(e: SaveError): string {
    match e
    case Invalid(field) => field
    case NotUnique => "Tried to save duplicate unique keys"
  }

  /** `get_queryset` and `list`: the serialized candidates the requesting user created, in
      collection order. */
  function ListForUser(docs: seq<Candidate>, userId: nat): (r: Response)
    ensures r.status == Http.OK && r.body.ListBody?
    ensures |r.body.candidates| <= |docs|
    ensures forall m :: m in r.body.candidates ==> exists d :: d in docs && d.createdById == NatToString(userId) && m == Rep(d)
    ensures forall d :: d in docs && d.createdById == NatToString(userId) ==> Rep(d) in r.body.candidates
  {
    RepsOfMembers(Owned(docs, NatToString(userId)));
    Response(Http.OK, ListBody(RepsOf(Owned(docs, NatToString(userId)))))
  }

  /** The serialization of each candidate, in order. */
  function RepsOf(cs: seq<Candidate>): (reps: seq<map<string, Field>>)
    ensures |reps| == |cs| && forall i :: 0 <= i < |cs| ==> reps[i] == Rep(cs[i])
  {
    seq(|cs|, i requires 0 <= i < |cs| => Rep(cs[i]))
  }

  /** Every candidate's serialization is in the list, and the list holds nothing else. */
  lemma RepsOfMembers(cs: seq<Candidate>)
    ensures forall d :: d in cs ==> Rep(d) in RepsOf(cs)
    ensures forall m :: m in RepsOf(cs) ==> exists d :: d in cs && m == Rep(d)
  {
    var reps := RepsOf(cs);
    forall d | d in cs ensures Rep(d) in reps {
      var i :| 0 <= i < |cs| && cs[i] == d;
      assert reps[i] == Rep(d);
    }
    forall m | m in reps ensures exists d :: d in cs && m == Rep(d) {
      var i :| 0 <= i < |reps| && reps[i] == m;
      assert cs[i] in cs;
    }
  }

  /** The candidates whose creator is `creator`, in order. */
  function Owned(docs: seq<Candidate>, creator: string): (r: seq<Candidate>)
    ensures forall d :: d in r <==> d in docs && d.createdById == creator
    ensures |r| <= |docs|
  {
    if |docs| == 0 then []
    else if docs[0].createdById == creator then [docs[0]] + Owned(docs[1..], creator)
    else Owned(docs[1..], creator)
  }

  /** `Owned` is an order-keeping filter: it distributes over concatenation and keeps a single
      candidate exactly when its creator matches. */
  lemma {:induction false} OwnedAppend(a: seq<Candidate>, b: seq<Candidate>, creator: string)
    ensures Owned(a + b, creator) == Owned(a, creator) + Owned(b, creator)
    ensures forall d :: Owned([d], creator) == if d.createdById == creator then [d] else []
    decreases |a|
  {
    if |a| > 0 {
      assert (a + b)[0] == a[0] && (a + b)[1..] == a[1..] + b;
      OwnedAppend(a[1..], b, creator);
    } else {
      assert a + b == b;
    }
    forall d ensures Owned([d], creator) == if d.createdById == creator then [d] else [] {
      assert [d][1..] == [];
    }
  }

  /** The listing keeps collection order: the list for two consecutive stretches of the
      collection is the list for the first followed by the list for the second. */
  lemma {:induction false} ListForUserInOrder(a: seq<Candidate>, b: seq<Candidate>, userId: nat)
    ensures ListForUser(a + b, userId).body.candidates ==
              ListForUser(a, userId).body.candidates + ListForUser(b, userId).body.candidates
  {
    var u := NatToString(userId);
    OwnedAppend(a, b, u);
    var p, q := Owned(a, u), Owned(b, u);
    var x, y := RepsOf(p), RepsOf(q);
    var xy := RepsOf(p + q);
    assert |xy| == |x + y|;
    forall i | 0 <= i < |xy| ensures xy[i] == (x + y)[i] {
      if i < |p| {
        assert (p + q)[i] == p[i];
      } else {
        assert (p + q)[i] == q[i - |p|];
      }
    }
    assert xy == x + y;
  }

  /** The reply to a creation: the result of saving the candidate. */
  function CreateResponse(r: Result<Candidate, SaveError>): (resp: Response)
    ensures r.Ok? ==> resp == Response(Http.CREATED, CandidateBody(Rep(r.value)))
    ensures r.Err? && r.error.Invalid? ==> resp.status == Http.BAD_REQUEST
    ensures r.Err? && r.error.NotUnique? ==> resp.status == Http.SERVER_ERROR
  {
    match r
    case Ok(c) => Response(Http.CREATED, CandidateBody(Rep(c)))
    case Err(Invalid(field)) => Response(Http.BAD_REQUEST, ErrorBody("Validation error: " + field))
    case Err(NotUnique) => Response(Http.SERVER_ERROR, ErrorBody("Failed to create candidate: " + Detail(NotUnique)))
  }

  /** A `send_mail` call: subject, message, sender and recipients. */
  datatype Mail = Mail(subject: string, message: string, sender: string, recipients: seq<string>)

  const InvitationSubject: string := "Your HireIQ Candidate ID"
  const InvitationHead: string :=
    "\nDear Candidate,\n\nYou have been invited to participate in the HireIQ interview process.\n\nYour Candidate ID is: "
  const InvitationTail: string :=
    "\n\nPlease use this ID to access the interview portal.\n\nBest regards,\nHireIQ Team\n                "

  /** The invitation sent from `sender` (`EMAIL_HOST_USER`) to a created candidate. */
  function Invitation(c: Candidate, sender: string): Mail {
    Mail(InvitationSubject, InvitationHead + c.candidateId + InvitationTail, sender, [c.email])
  }

  /** The invitation goes to the candidate alone and its message carries the candidate id. */
  lemma InvitationCarriesId(c: Candidate, sender: string)
    ensures var m := Invitation(c, sender);
      m.recipients == [c.email] && m.subject == "Your HireIQ Candidate ID" && Contains(m.message, c.candidateId)
  {
    ContainsInfix(InvitationHead, c.candidateId, InvitationTail);
  }

  /** `CandidateListCreateView.create`. The serializer's `EmailField` strips the submitted
      email (`""` stands for a missing one) and rejects it when blank or when `validEmail`, the
      address check of Django's `EmailValidator`, refuses it; otherwise the candidate is created
      with the stripped email for the requesting user and saved. Only a saved candidate is sent
      the invitation (`mail`); whether its delivery fails does not change the reply, since the
      failure is only logged. */
  method CreateCandidate(store: CandidateStore, email: string, validEmail: string -> bool, userId: nat,
                         now: Time, freshId: string, freshOid: string, sender: string)
    returns (resp: Response, mail: Option<Mail>)
    requires store.Valid() && freshId != "" && FreshOid(store.docs, freshOid)
    modifies store
    ensures store.Valid()
    ensures Strip(email) == "" || !validEmail(Strip(email)) ==>
              resp == Response(Http.BAD_REQUEST, FormErrors) && mail.None? && store.docs == old(store.docs)
    ensures Strip(email) != "" && validEmail(Strip(email)) ==>
              var (r, after) := Saved(old(store.docs), Construct([EmailIs(Strip(email))], userId, now, freshId), now, freshId, freshOid);
              && store.docs == after && resp == CreateResponse(r)
              && mail == (if r.Ok? then Some(Invitation(r.value, sender)) else None)
  {
    var cleaned := Strip(email);
    if cleaned == "" || !validEmail(cleaned) {
      return Response(Http.BAD_REQUEST, FormErrors), None;
    }
    var r := Create(store, [EmailIs(cleaned)], userId, now, freshId, freshOid);
    mail := if r.Ok? then Some(Invitation(r.value, sender)) else None;
    resp := CreateResponse(r);
  }

  /** `validate_candidate_id`. */
  function ValidateCandidateId(docs: seq<Candidate>, candidateId: string): (r: Response)
    ensures candidateId == "" ==> r == Response(Http.BAD_REQUEST, ErrorBody("Candidate ID is required"))
    ensures candidateId != "" && GetActive(docs, candidateId).Some? ==>
              r == Response(Http.OK, ValidBody(Rep(GetActive(docs, candidateId).value)))
    ensures candidateId != "" && GetActive(docs, candidateId).None? ==>
              r == Response(Http.NOT_FOUND, InvalidBody("Invalid candidate ID"))
  {
    if candidateId == "" then Response(Http.BAD_REQUEST, ErrorBody("Candidate ID is required"))
    else match GetActive(docs, candidateId)
      case Some(c) => Response(Http.OK, ValidBody(Rep(c)))
      case None => Response(Http.NOT_FOUND, InvalidBody("Invalid candidate ID"))
  }

  /** A stored candidate's id validates exactly when the candidate is active, and then the reply
      carries that candidate. */
  lemma {:induction false} ValidateStoredId(docs: seq<Candidate>, k: nat)
    requires Inv(docs) && k < |docs|
    ensures docs[k].isActive ==> ValidateCandidateId(docs, docs[k].candidateId) == Response(Http.OK, ValidBody(Rep(docs[k])))
    ensures !docs[k].isActive ==> ValidateCandidateId(docs, docs[k].candidateId) == Response(Http.NOT_FOUND, InvalidBody("Invalid candidate ID"))
  {
    GetFindsTheMatch(docs, k);
  }

  /** An uploaded file: its name, the size the upload reports, and its bytes. */
  datatype Upload = Upload(name: string, size: nat, content: seq<byte>)

  const MaxUploadSize: nat := 10 * 1024 * 1024

  /** `resume_file.name.lower().endswith('.pdf')`. */
  predicate IsPdfName(name: string) {
    EndsWith(Lower(name), ".pdf")
  }

  /** The checks of `upload_resume` in their order; a Django file whose name is empty is falsy. */
  function CheckUpload(candidateId: string, file: Option<Upload>): (r: Option<string>)
    ensures candidateId == "" ==> r == Some("Candidate ID is required")
    ensures candidateId != "" && (file.None? || file.value.name == "") ==> r == Some("Resume file is required")
    ensures candidateId != "" && file.Some? && file.value.name != "" && !IsPdfName(file.value.name) ==>
              r == Some("Only PDF files are allowed")
    ensures candidateId != "" && file.Some? && file.value.name != "" && IsPdfName(file.value.name) ==>
              (r.Some? <==> file.value.size > MaxUploadSize) &&
              (r.Some? ==> r.value == "File size must be less than 10MB")
  {
    if candidateId == "" then Some("Candidate ID is required")
    else if file.None? || file.value.name == "" then Some("Resume file is required")
    else if !IsPdfName(file.value.name) then Some("Only PDF files are allowed")
    else if file.value.size > MaxUploadSize then Some("File size must be less than 10MB")
    else None
  }

  /** The suffix test ignores case, and a file of exactly 10 MiB passes the size test while one
      byte more fails it. */
  lemma {:induction false} PdfSuffixAndSizeBoundary(candidateId: string, stem: string, content: seq<byte>)
    requires candidateId != ""
    ensures IsPdfName(stem + ".pdf") && IsPdfName(stem + ".PDF") && IsPdfName(stem + ".Pdf")
    ensures CheckUpload(candidateId, Some(Upload(stem + ".PDF", 10485760, content))).None?
    ensures CheckUpload(candidateId, Some(Upload(stem + ".pdf", 10485761, content))) == Some("File size must be less than 10MB")
  {
    LowerAppend(stem, ".pdf");
    LowerAppend(stem, ".PDF");
    LowerAppend(stem, ".Pdf");
    assert Lower(".PDF") == ".pdf" && Lower(".Pdf") == ".pdf" && Lower(".pdf") == ".pdf";
    assert (Lower(stem) + ".pdf")[|Lower(stem) + ".pdf"| - 4..] == ".pdf";
  }

  /** The four assignments of a successful upload. */
  function WithResume(c: Candidate, f: Upload): (r: Candidate)
    ensures r.resumeFilename == f.name && r.resumeData == f.content
    ensures r.resumeContentType == DefaultContentType && r.resumeSize == NatToString(f.size)
    ensures r.(resumeFilename := c.resumeFilename, resumeData := c.resumeData,
               resumeContentType := c.resumeContentType, resumeSize := c.resumeSize) == c
  {
    c.(resumeFilename := f.name, resumeData := f.content, resumeContentType := DefaultContentType,
       resumeSize := NatToString(f.size))
  }

  /** `upload_resume` against the collection: the reply, and the collection afterwards. */
  function Uploaded(docs: seq<Candidate>, candidateId: string, file: Option<Upload>, now: Time): (Response, seq<Candidate>)
  {
    match CheckUpload(candidateId, file)
    case Some(msg) => (Response(Http.BAD_REQUEST, ErrorBody(msg)), docs)
    case None =>
      match GetActive(docs, candidateId)
      case None => (Response(Http.NOT_FOUND, ErrorBody("Invalid candidate ID")), docs)
      case Some(c) =>
        var (r, after) := Saved(docs, WithResume(c, file.value), now, "", "");
        match r
        case Err(e) => (Response(Http.SERVER_ERROR, ErrorBody("Upload failed: " + Detail(e))), after)
        case Ok(u) =>
          (Response(Http.OK, UploadedBody("Resume uploaded successfully", Rep(u))), after)
  }

  /** A stored candidate with its resume fields changed keeps its keys, so it clashes with no
      other document. */
  lemma NoClashForSameKeys(docs: seq<Candidate>, c: Candidate, t: Candidate)
    requires Inv(docs) && c in docs
    requires t.oid == c.oid && t.candidateId == c.candidateId && t.email == c.email
    ensures !Clash(docs, t)
  {
  }

  /** A rejected upload replies 400 or 404 and changes nothing; an accepted one writes the four
      resume fields and the save time onto the one active candidate with that id, replies 200,
      and keeps every other document; a file name longer than 255 characters fails validation
      with 500 and changes nothing. */
  lemma {:induction false} UploadEffect(docs: seq<Candidate>, candidateId: string, file: Option<Upload>, now: Time)
    requires Inv(docs)
    ensures var (resp, after) := Uploaded(docs, candidateId, file, now);
      && Inv(after)
      && (CheckUpload(candidateId, file).Some? ==> resp.status == Http.BAD_REQUEST && after == docs)
      && (CheckUpload(candidateId, file).None? && GetActive(docs, candidateId).None? ==>
            resp == Response(Http.NOT_FOUND, ErrorBody("Invalid candidate ID")) && after == docs)
      && (CheckUpload(candidateId, file).None? && GetActive(docs, candidateId).Some? ==>
            var u := WithResume(GetActive(docs, candidateId).value, file.value).(updatedAt := now);
            && (|file.value.name| > MaxFilenameLength ==> resp.status == Http.SERVER_ERROR && after == docs)
            && (|file.value.name| <= MaxFilenameLength ==>
                  && resp == Response(Http.OK, UploadedBody("Resume uploaded successfully", Rep(u)))
                  && |after| == |docs|
                  && forall i :: 0 <= i < |docs| ==>
                       after[i] == if docs[i].candidateId == candidateId then u else docs[i]))
  {
    if CheckUpload(candidateId, file).None? && GetActive(docs, candidateId).Some? {
      UploadToActive(docs, candidateId, file.value, now);
    }
  }

  /** The accepted case of `UploadEffect`: the save of the found candidate. */
  lemma UploadToActive(docs: seq<Candidate>, candidateId: string, f: Upload, now: Time)
    requires Inv(docs) && CheckUpload(candidateId, Some(f)).None? && GetActive(docs, candidateId).Some?
    ensures var (resp, after) := Uploaded(docs, candidateId, Some(f), now);
      var u := WithResume(GetActive(docs, candidateId).value, f).(updatedAt := now);
      && Inv(after)
      && (|f.name| > MaxFilenameLength ==> resp.status == Http.SERVER_ERROR && after == docs)
      && (|f.name| <= MaxFilenameLength ==>
            && resp == Response(Http.OK, UploadedBody("Resume uploaded successfully", Rep(u)))
            && |after| == |docs|
            && forall i :: 0 <= i < |docs| ==>
                 after[i] == if docs[i].candidateId == candidateId then u else docs[i])
  {
    var c := GetActive(docs, candidateId).value;
    var k :| 0 <= k < |docs| && docs[k] == c;
    var t := WithResume(c, f);
    NatToStringLength(f.size, 8);
    var s := Stamp(t, now, "");
    assert s == t.(updatedAt := now);
    SavedKeepsInv(docs, t, now, "", "");
    if Validate(s).None? {
      NoClashForSameKeys(docs, c, s);
      RewriteInPlace(docs, k, s);
      assert Saved(docs, t, now, "", "") == (Ok(s), Upsert(docs, s));
    }
  }

  /** Writing a document with the ObjectId and candidate id of document `k` replaces exactly the
      documents with that candidate id. */
  lemma RewriteInPlace(docs: seq<Candidate>, k: nat, s: Candidate)
    requires Inv(docs) && k < |docs| && s.oid == docs[k].oid && s.candidateId == docs[k].candidateId
    ensures var after := Upsert(docs, s);
      |after| == |docs| && forall i :: 0 <= i < |docs| ==> after[i] == if docs[i].candidateId == s.candidateId then s else docs[i]
  {
    OidMatchesId(docs, k);
    assert docs[k].oid == s.oid;
  }

  /** In a well-formed collection a document holds the ObjectId of document `k` exactly when it
      holds its candidate id. */
  lemma OidMatchesId(docs: seq<Candidate>, k: nat)
    requires Inv(docs) && k < |docs|
    ensures forall i :: 0 <= i < |docs| ==> (docs[i].oid == docs[k].oid <==> docs[i].candidateId == docs[k].candidateId)
  {
    forall i | 0 <= i < |docs|
      ensures docs[i].oid == docs[k].oid <==> docs[i].candidateId == docs[k].candidateId
    {
      if i < k {
        assert docs[i].oid != docs[k].oid && docs[i].candidateId != docs[k].candidateId;
      } else if k < i {
        assert docs[k].oid != docs[i].oid && docs[k].candidateId != docs[i].candidateId;
      }
    }
  }

  /** `upload_resume`. */
  method UploadResume(store: CandidateStore, candidateId: string, file: Option<Upload>, now: Time)
    returns (resp: Response)
    requires store.Valid()
    modifies store
    ensures store.Valid()
    ensures (resp, store.docs) == Uploaded(old(store.docs), candidateId, file, now)
  {
    var rejected := CheckUpload(candidateId, file);
    if rejected.Some? {
      return Response(Http.BAD_REQUEST, ErrorBody(rejected.value));
    }
    var found := GetActive(store.docs, candidateId);
    if found.None? {
      return Response(Http.NOT_FOUND, ErrorBody("Invalid candidate ID"));
    }
    var candidate := WithResume(found.value, file.value);
    var r := store.Save(candidate, now, "", "");
    match r
    case Err(e) =>
      resp := Response(Http.SERVER_ERROR, ErrorBody("Upload failed: " + Detail(e)));
    case Ok(u) =>
      resp := Response(Http.OK, UploadedBody("Resume uploaded successfully", Rep(u)));
  }

  /** `download_resume`: the stored bytes with the content type, download name and length,
      each falling back to its default when the stored value is empty. */
  function DownloadResume(docs: seq<Candidate>, candidateId: string): (r: Response)
    ensures GetActive(docs, candidateId).None? ==> r == Response(Http.NOT_FOUND, ErrorBody("Invalid candidate ID"))
    ensures GetActive(docs, candidateId).Some? && GetActive(docs, candidateId).value.resumeData == [] ==>
              r == Response(Http.NOT_FOUND, ErrorBody("No resume found for this candidate"))
    ensures r.status == Http.OK <==> GetActive(docs, candidateId).Some? && GetActive(docs, candidateId).value.resumeData != []
    ensures r.status == Http.OK ==>
              var c := GetActive(docs, candidateId).value;
              && r.body.FileBody? && r.body.data == c.resumeData && r.body.contentType != ""
              && (c.resumeContentType != "" ==> r.body.contentType == c.resumeContentType)
              && (c.resumeContentType == "" ==> r.body.contentType == DefaultContentType)
              && (c.resumeFilename == "" ==> r.body.disposition == DispositionFor(candidateId + "_resume.pdf"))
              && (c.resumeFilename != "" ==> r.body.disposition == DispositionFor(c.resumeFilename))
              && (c.resumeSize == "" ==> r.body.contentLength == NatToString(|c.resumeData|))
              && (c.resumeSize != "" ==> r.body.contentLength == c.resumeSize)
  {
    match GetActive(docs, candidateId)
    case None => Response(Http.NOT_FOUND, ErrorBody("Invalid candidate ID"))
    case Some(c) =>
      if c.resumeData == [] then Response(Http.NOT_FOUND, ErrorBody("No resume found for this candidate"))
      else
        var contentType := if c.resumeContentType != "" then c.resumeContentType else DefaultContentType;
        var filename := if c.resumeFilename != "" then c.resumeFilename else candidateId + "_resume.pdf";
        var length := if c.resumeSize != "" then c.resumeSize else NatToString(|c.resumeData|);
        Response(Http.OK, FileBody(c.resumeData, contentType, DispositionFor(filename), length))
  }

  /** The `Content-Disposition` header value. */
  function DispositionFor(filename: string): string {
    "attachment; filename=\"" + filename + "\""
  }

  /** Downloading right after a successful upload of non-empty content returns exactly the
      uploaded bytes under the uploaded name, typed as PDF, with the uploaded size. */
  lemma {:induction false} DownloadAfterUpload(docs: seq<Candidate>, candidateId: string, f: Upload, now: Time)
    requires Inv(docs) && f.content != []
    requires Uploaded(docs, candidateId, Some(f), now).0.status == Http.OK
    ensures DownloadResume(Uploaded(docs, candidateId, Some(f), now).1, candidateId) ==
              Response(Http.OK, FileBody(f.content, DefaultContentType, DispositionFor(f.name), NatToString(f.size)))
  {
    UploadEffect(docs, candidateId, Some(f), now);
    var after := Uploaded(docs, candidateId, Some(f), now).1;
    var c := GetActive(docs, candidateId).value;
    var k :| 0 <= k < |docs| && docs[k] == c;
    var u := WithResume(c, f).(updatedAt := now);
    assert after[k] == u;
    GetFindsTheMatch(after, k);
  }
}
