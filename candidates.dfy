/** The `Candidate` document of the `candidates` collection and its `save` rule: every save stamps
    `updated_at`, fills an empty `candidate_id` with a fresh uuid, validates the declared maximum
    lengths and the required email, and respects the two unique fields. The collection is a
    sequence of document values in iteration order; a document object changed in place is the
    value `save` returns. */
module Candidates {
  import opened Wrappers

  newtype byte = x: int | 0 <= x < 256

  /** `datetime.utcnow()` readings, as supplied instants. */
  type Time = nat

  datatype Candidate = Candidate(
    oid: string,               // the document's ObjectId, "" until first saved
    candidateId: string,
    email: string,
    createdById: string,
    createdAt: Time,
    updatedAt: Time,
    isActive: bool,
    resumeFilename: string,
    resumeData: seq<byte>,
    resumeContentType: string,
    resumeSize: string,
    resumeUrl: string)

  const DefaultContentType: string := "application/pdf"

  const MaxIdLength: nat := 100
  const MaxFilenameLength: nat := 255
  const MaxContentTypeLength: nat := 100
  const MaxSizeLength: nat := 20
  const MaxUrlLength: nat := 500

  /** A document built with no arguments: every default of the field declarations applied, the
      uuid of the `candidate_id` default being `freshId` and the `datetime.utcnow` defaults `now`. */
  function Defaults(now: Time, freshId: string): (c: Candidate)
    ensures c.isActive && c.resumeContentType == DefaultContentType
    ensures c.candidateId == freshId && c.createdAt == now && c.updatedAt == now
    ensures c.oid == "" && c.email == "" && c.resumeData == []
  {
    Candidate("", freshId, "", "", now, now, true, "", [], DefaultContentType, "", "")
  }

  /** The assignments `save` makes before writing: `updated_at` is now, and an empty
      `candidate_id` is replaced by a fresh uuid. */
  function Stamp(c: Candidate, now: Time, freshId: string): (s: Candidate)
    ensures s.updatedAt == now
    ensures c.candidateId != "" ==> s.candidateId == c.candidateId
    ensures c.candidateId == "" ==> s.candidateId == freshId
    ensures s.(updatedAt := c.updatedAt, candidateId := c.candidateId) == c
  {
    c.(updatedAt := now, candidateId := if c.candidateId != "" then c.candidateId else freshId)
  }

  datatype SaveError =
    | Invalid(field: string)   // mongoengine's ValidationError, naming the first failing field
    | NotUnique                // a unique index rejected the write

  /** Document validation: the required email, then the maximum lengths in field order. */
  function Validate(c: Candidate): (r: Option<string>)
    ensures r.None? <==>
              && c.email != "" && |c.candidateId| <= MaxIdLength && |c.createdById| <= MaxIdLength
              && |c.resumeFilename| <= MaxFilenameLength && |c.resumeContentType| <= MaxContentTypeLength
              && |c.resumeSize| <= MaxSizeLength && |c.resumeUrl| <= MaxUrlLength
  {
    if |c.candidateId| > MaxIdLength then Some("candidate_id")
    else if c.email == "" then Some("email")
    else if |c.createdById| > MaxIdLength then Some("created_by_id")
    else if |c.resumeFilename| > MaxFilenameLength then Some("resume_filename")
    else if |c.resumeContentType| > MaxContentTypeLength then Some("resume_content_type")
    else if |c.resumeSize| > MaxSizeLength then Some("resume_size")
    else if |c.resumeUrl| > MaxUrlLength then Some("resume_url")
    else None
  }

  /** Another document already holds the `candidate_id` or the `email` of `c`. */
  predicate Clash(docs: seq<Candidate>, c: Candidate) {
    exists i :: 0 <= i < |docs| && docs[i].oid != c.oid &&
      (docs[i].candidateId == c.candidateId || docs[i].email == c.email)
  }

  /** Write `c` over the document with its ObjectId, or add it when there is none. */
  function Upsert(docs: seq<Candidate>, c: Candidate): (r: seq<Candidate>)
    ensures (exists i :: 0 <= i < |docs| && docs[i].oid == c.oid) ==>
              |r| == |docs| && forall i :: 0 <= i < |docs| ==> r[i] == if docs[i].oid == c.oid then c else docs[i]
    ensures (forall i :: 0 <= i < |docs| ==> docs[i].oid != c.oid) ==> r == docs + [c]
  {
    if exists i :: 0 <= i < |docs| && docs[i].oid == c.oid then
      seq(|docs|, i requires 0 <= i < |docs| => if docs[i].oid == c.oid then c else docs[i])
    else
      docs + [c]
  }

  /** What the database holds: documents that passed validation, with ObjectIds and candidate
      ids set, and no two documents sharing an ObjectId, a candidate id or an email (the two
      `unique=True` declarations). */
  ghost predicate Inv(docs: seq<Candidate>) {
    && (forall i :: 0 <= i < |docs| ==> docs[i].oid != "" && docs[i].candidateId != "" && Validate(docs[i]).None?)
    && (forall i, j :: 0 <= i < j < |docs| ==>
          docs[i].oid != docs[j].oid && docs[i].candidateId != docs[j].candidateId && docs[i].email != docs[j].email)
  }

  /** `freshOid` is an ObjectId no document holds. */
  predicate FreshOid(docs: seq<Candidate>, freshOid: string) {
    freshOid != "" && forall i :: 0 <= i < |docs| ==> docs[i].oid != freshOid
  }

  /** `c.save()` against the collection `docs`: the result, and the collection afterwards. */
  function Saved(docs: seq<Candidate>, c: Candidate, now: Time, freshId: string, freshOid: string)
    : (Result<Candidate, SaveError>, seq<Candidate>)
  {
    var s := Stamp(c, now, freshId);
    match Validate(s)
    case Some(field) => (Err(Invalid(field)), docs)
    case None =>
      var t := if s.oid == "" then s.(oid := freshOid) else s;
      if Clash(docs, t) then (Err(NotUnique), docs) else (Ok(t), Upsert(docs, t))
  }

  /** A successful save writes the stamped document: `updated_at` is now, the candidate id is
      the stored one or the fresh uuid, and nothing else about `c` changes but its ObjectId. */
  lemma SavedStamps(docs: seq<Candidate>, c: Candidate, now: Time, freshId: string, freshOid: string)
    requires c.candidateId == "" ==> freshId != ""
    ensures var (r, after) := Saved(docs, c, now, freshId, freshOid);
      && (r.Err? ==> after == docs)
      && (r.Ok? ==>
            && r.value.updatedAt == now && r.value.candidateId != ""
            && (c.candidateId != "" ==> r.value.candidateId == c.candidateId)
            && (c.oid != "" ==> r.value.oid == c.oid)
            && r.value.(oid := c.oid, updatedAt := c.updatedAt, candidateId := c.candidateId) == c)
  {
  }

  /** A save fails exactly when validation fails or a unique field is taken. */
  lemma {:induction false} SavedFails(docs: seq<Candidate>, c: Candidate, now: Time, freshId: string, freshOid: string)
    ensures var s := Stamp(c, now, freshId); var t := if s.oid == "" then s.(oid := freshOid) else s;
      Saved(docs, c, now, freshId, freshOid).0.Err? <==> Validate(s).Some? || Clash(docs, t)
  {
  }

  /** Writing a document whose keys are set and not held by another document keeps the
      invariant; afterwards the document is stored and every other document is still there. */
  lemma UpsertKeepsInv(docs: seq<Candidate>, t: Candidate)
    requires Inv(docs) && t.oid != "" && t.candidateId != "" && Validate(t).None? && !Clash(docs, t)
    ensures Inv(Upsert(docs, t)) && t in Upsert(docs, t)
    ensures forall d :: d in docs && d.oid != t.oid ==> d in Upsert(docs, t)
  {
    if exists i :: 0 <= i < |docs| && docs[i].oid == t.oid {
      var k :| 0 <= k < |docs| && docs[k].oid == t.oid;
      ReplaceKeepsInv(docs, t, k);
    } else {
      AppendKeepsInv(docs, t);
    }
  }

  /** The overwrite case of `UpsertKeepsInv`: `t` takes the place of document `k`. */
  lemma ReplaceKeepsInv(docs: seq<Candidate>, t: Candidate, k: nat)
    requires Inv(docs) && t.oid != "" && t.candidateId != "" && Validate(t).None? && !Clash(docs, t)
    requires k < |docs| && docs[k].oid == t.oid
    ensures Inv(Upsert(docs, t)) && t in Upsert(docs, t)
    ensures forall d :: d in docs && d.oid != t.oid ==> d in Upsert(docs, t)
  {
    var after := Upsert(docs, t);
    assert after[k] == t;
    forall i, j | 0 <= i < j < |after|
      ensures after[i].oid != after[j].oid && after[i].candidateId != after[j].candidateId
      ensures after[i].email != after[j].email
    {
      assert !(docs[i].oid != t.oid && (docs[i].candidateId == t.candidateId || docs[i].email == t.email));
      assert !(docs[j].oid != t.oid && (docs[j].candidateId == t.candidateId || docs[j].email == t.email));
    }
    forall d | d in docs && d.oid != t.oid
      ensures d in after
    {
      var m :| 0 <= m < |docs| && docs[m] == d;
      assert after[m] == d;
    }
  }

  /** The insert case of `UpsertKeepsInv`: no document holds the ObjectId of `t`. */
  lemma AppendKeepsInv(docs: seq<Candidate>, t: Candidate)
    requires Inv(docs) && t.oid != "" && t.candidateId != "" && Validate(t).None? && !Clash(docs, t)
    requires forall i :: 0 <= i < |docs| ==> docs[i].oid != t.oid
    ensures Inv(Upsert(docs, t)) && t in Upsert(docs, t)
    ensures forall d :: d in docs ==> d in Upsert(docs, t)
  {
    var after := docs + [t];
    assert after[|docs|] == t;
    forall i | 0 <= i < |docs|
      ensures after[i] == docs[i]
      ensures docs[i].candidateId != t.candidateId && docs[i].email != t.email
    {
      assert !(docs[i].oid != t.oid && (docs[i].candidateId == t.candidateId || docs[i].email == t.email));
    }
  }

  /** Saving keeps the database invariant, and afterwards the saved document is stored, with
      every other document as it was. */
  lemma {:induction false} SavedKeepsInv(docs: seq<Candidate>, c: Candidate, now: Time, freshId: string, freshOid: string)
    requires Inv(docs) && (c.candidateId == "" ==> freshId != "") && (c.oid == "" ==> FreshOid(docs, freshOid))
    ensures var (r, after) := Saved(docs, c, now, freshId, freshOid);
      && Inv(after)
      && (r.Ok? ==> r.value in after && forall d :: d in docs && d.oid != r.value.oid ==> d in after)
  {
    var (r, after) := Saved(docs, c, now, freshId, freshOid);
    if r.Ok? {
      UpsertKeepsInv(docs, r.value);
    }
  }

  /** `filter(...).first()` over a collection: the first document that satisfies `p`. */
  function FirstWhere<T>(s: seq<T>, p: T -> bool): (r: Option<T>)
    ensures r.None? <==> forall i :: 0 <= i < |s| ==> !p(s[i])
    ensures r.Some? ==> r.value in s && p(r.value)
  {
    if |s| == 0 then None
    else if p(s[0]) then Some(s[0])
    else
      var rest := FirstWhere(s[1..], p);
      assert forall i :: 1 <= i < |s| ==> s[1..][i - 1] == s[i];
      rest
  }

  /** When only the document at `k` satisfies `p`, that document is the one found. */
  lemma {:induction false} FirstWhereUnique<T>(s: seq<T>, p: T -> bool, k: nat)
    requires k < |s| && p(s[k])
    requires forall i :: 0 <= i < |s| && p(s[i]) ==> i == k
    ensures FirstWhere(s, p) == Some(s[k])
  {
    if k > 0 {
      var tail := s[1..];
      assert !p(s[0]);
      assert tail[k - 1] == s[k];
      forall i | 0 <= i < |tail| && p(tail[i]) ensures i == k - 1 {
        assert tail[i] == s[i + 1];
      }
      FirstWhereUnique(tail, p, k - 1);
    }
  }

  /** `Candidate.objects.get(candidate_id=...)`, or None for `DoesNotExist`: the first match. */
  function GetById(docs: seq<Candidate>, candidateId: string): (r: Option<Candidate>)
    ensures r.None? <==> forall i :: 0 <= i < |docs| ==> docs[i].candidateId != candidateId
    ensures r.Some? ==> r.value in docs && r.value.candidateId == candidateId
  {
    FirstWhere(docs, (c: Candidate) => c.candidateId == candidateId)
  }

  /** `Candidate.objects.get(email=...)`, or None for `DoesNotExist`: the first match. */
  function GetByEmail(docs: seq<Candidate>, email: string): (r: Option<Candidate>)
    ensures r.None? <==> forall i :: 0 <= i < |docs| ==> docs[i].email != email
    ensures r.Some? ==> r.value in docs && r.value.email == email
  {
    FirstWhere(docs, (c: Candidate) => c.email == email)
  }

  /** `Candidate.objects.get(candidate_id=..., is_active=True)`: the first active match. */
  function GetActive(docs: seq<Candidate>, candidateId: string): (r: Option<Candidate>)
    ensures r.None? <==> forall i :: 0 <= i < |docs| ==> !(docs[i].candidateId == candidateId && docs[i].isActive)
    ensures r.Some? ==> r.value in docs && r.value.candidateId == candidateId && r.value.isActive
  {
    FirstWhere(docs, (c: Candidate) => c.candidateId == candidateId && c.isActive)
  }

  /** In a well-formed collection the lookups find the one document holding the key. */
  lemma {:induction false} GetFindsTheMatch(docs: seq<Candidate>, k: nat)
    requires Inv(docs) && k < |docs|
    ensures GetById(docs, docs[k].candidateId) == Some(docs[k])
    ensures GetByEmail(docs, docs[k].email) == Some(docs[k])
    ensures docs[k].isActive <==> GetActive(docs, docs[k].candidateId) == Some(docs[k])
  {
    var d := docs[k];
    FirstWhereUnique(docs, (c: Candidate) => c.candidateId == d.candidateId, k);
    FirstWhereUnique(docs, (c: Candidate) => c.email == d.email, k);
    if d.isActive {
      FirstWhereUnique(docs, (c: Candidate) => c.candidateId == d.candidateId && c.isActive, k);
    }
  }

  /** The `candidates` collection. */
  class CandidateStore {
    var docs: seq<Candidate>

    ghost predicate Valid()
      reads this
    {
      Inv(docs)
    }

    constructor ()
      ensures Valid() && docs == []
    {
      docs := [];
    }

    /** `Candidate.save()`. `freshId` is the uuid an empty candidate id receives and `freshOid`
        the ObjectId the database gives a new document. */
    method Save(c: Candidate, now: Time, freshId: string, freshOid: string) returns (r: Result<Candidate, SaveError>)
      requires Valid()
      requires c.candidateId == "" ==> freshId != ""
      requires c.oid == "" ==> FreshOid(docs, freshOid)
      modifies this
      ensures Valid()
      ensures (r, docs) == Saved(old(docs), c, now, freshId, freshOid)
    {
      var s := c.(updatedAt := now);
      if s.candidateId == "" {
        s := s.(candidateId := freshId);
      }
      var invalid := Validate(s);
      if invalid.Some? {
        return Err(Invalid(invalid.value));
      }
      if s.oid == "" {
        s := s.(oid := freshOid);
      }
      if Clash(docs, s) {
        return Err(NotUnique);
      }
      SavedKeepsInv(docs, c, now, freshId, freshOid);
      docs := Upsert(docs, s);
      r := Ok(s);
    }

    /** `candidate.delete()`: the document with that ObjectId is removed. */
    method Delete(oid: string)
      requires Valid()
      modifies this
      ensures Valid()
      ensures docs == Without(old(docs), oid)
    {
      WithoutKeepsInv(docs, oid);
      docs := Without(docs, oid);
    }
  }

  /** The collection with the document of that ObjectId removed. */
  function Without(docs: seq<Candidate>, oid: string): (r: seq<Candidate>)
    ensures forall d :: d in r <==> d in docs && d.oid != oid
    ensures |r| <= |docs|
  {
    if |docs| == 0 then []
    else if docs[0].oid == oid then Without(docs[1..], oid)
    else [docs[0]] + Without(docs[1..], oid)
  }

  lemma {:induction false} WithoutKeepsInv(docs: seq<Candidate>, oid: string)
    requires Inv(docs)
    ensures Inv(Without(docs, oid))
  {
    if |docs| > 0 {
      var tail := docs[1..];
      assert Inv(tail) by {
        assert forall i :: 0 <= i < |tail| ==> tail[i] == docs[i + 1];
      }
      WithoutKeepsInv(tail, oid);
      var r := Without(tail, oid);
      if docs[0].oid != oid {
        assert forall i :: 0 <= i < |r| ==> r[i] in tail;
        forall i, j | 0 <= i < j < |[docs[0]] + r|
          ensures ([docs[0]] + r)[i].oid != ([docs[0]] + r)[j].oid
          ensures ([docs[0]] + r)[i].candidateId != ([docs[0]] + r)[j].candidateId
          ensures ([docs[0]] + r)[i].email != ([docs[0]] + r)[j].email
        {
          if i == 0 {
            var d := r[j - 1];
            assert d in tail;
            var m :| 0 <= m < |tail| && tail[m] == d;
            assert docs[m + 1] == d;
          }
        }
      }
    }
  }
}
