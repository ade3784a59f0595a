/** The REST serializers of a candidate: the dictionary shown to clients, and `create` and
    `update` from validated request data. Validated data is a dictionary over the writable
    fields (`email`, `is_active`, and the `created_by_id` that `create` adds), kept as the
    sequence of its items in insertion order. */
module Serializers {
  import opened Wrappers
  import opened Candidates
  import Strings

  /** A value of the representation dictionary. */
  datatype Field = Text(text: string) | Flag(flag: bool) | Instant(instant: Time)

  /** `get_has_resume`: `bool(obj.resume_data)`. */
  function HasResume(c: Candidate): (r: bool)
    ensures r <==> c.resumeData != []
  {
    |c.resumeData| > 0
  }

  const RepresentationKeys: set<string> := {
    "id", "candidate_id", "email", "created_by_id", "created_at", "updated_at",
    "is_active", "resume_filename", "resume_content_type", "resume_size", "has_resume"
  }

  /** `to_representation`: None for no instance, otherwise the eleven entries. */
  function Representation(instance: Option<Candidate>): (r: Option<map<string, Field>>)
    ensures r.None? <==> instance.None?
    ensures r.Some? ==> r.value.Keys == RepresentationKeys
    ensures r.Some? ==> r.value["id"] == Text(instance.value.oid)
    ensures r.Some? ==> r.value["candidate_id"] == Text(instance.value.candidateId)
    ensures r.Some? ==> r.value["email"] == Text(instance.value.email)
    ensures r.Some? ==> r.value["has_resume"] == Flag(instance.value.resumeData != [])
  {
    match instance
    case None => None
    case Some(c) =>
      Some(map[
        "id" := Text(c.oid),
        "candidate_id" := Text(c.candidateId),
        "email" := Text(c.email),
        "created_by_id" := Text(c.createdById),
        "created_at" := Instant(c.createdAt),
        "updated_at" := Instant(c.updatedAt),
        "is_active" := Flag(c.isActive),
        "resume_filename" := Text(c.resumeFilename),
        "resume_content_type" := Text(c.resumeContentType),
        "resume_size" := Text(c.resumeSize),
        "has_resume" := Flag(HasResume(c))
      ])
  }

  /** The representation has eleven distinct keys. */
  lemma RepresentationSize(c: Candidate)
    ensures |Representation(Some(c)).value| == 11
  {
    var s: set<string> := {"id"};
    assert "candidate_id" !in s;
    s := s + {"candidate_id"};
    assert "email" !in s;
    s := s + {"email"};
    assert "created_by_id" !in s;
    s := s + {"created_by_id"};
    assert "created_at" !in s;
    s := s + {"created_at"};
    assert "updated_at" !in s;
    s := s + {"updated_at"};
    assert "is_active" !in s;
    s := s + {"is_active"};
    assert "resume_filename" !in s;
    s := s + {"resume_filename"};
    assert "resume_content_type" !in s;
    s := s + {"resume_content_type"};
    assert "resume_size" !in s;
    s := s + {"resume_size"};
    assert "has_resume" !in s;
    s := s + {"has_resume"};
    assert s == RepresentationKeys;
    assert |Representation(Some(c)).value| == |RepresentationKeys|;
  }

  datatype Key = EmailKey | ActiveKey | CreatorKey

  /** One item of validated data, `(attr, value)`. */
  datatype Assignment = EmailIs(email: string) | ActiveIs(active: bool) | CreatorIs(creator: string)

  function KeyOf(a: Assignment): Key {
    match a
    case EmailIs(_) => EmailKey
    case ActiveIs(_) => ActiveKey
    case CreatorIs(_) => CreatorKey
  }

  /** The current value of attribute `k`, as an item. */
  function Read(c: Candidate, k: Key): (a: Assignment)
    ensures KeyOf(a) == k
  {
    match k
    case EmailKey => EmailIs(c.email)
    case ActiveKey => ActiveIs(c.isActive)
    case CreatorKey => CreatorIs(c.createdById)
  }

  /** `setattr(instance, attr, value)`. */
  function Assign(c: Candidate, a: Assignment): (r: Candidate)
    ensures Read(r, KeyOf(a)) == a
    ensures forall k :: k != KeyOf(a) ==> Read(r, k) == Read(c, k)
    ensures r.(email := c.email, isActive := c.isActive, createdById := c.createdById) == c
  {
    match a
    case EmailIs(e) => c.(email := e)
    case ActiveIs(b) => c.(isActive := b)
    case CreatorIs(u) => c.(createdById := u)
  }

  /** The items assigned in order. */
  function ApplyAll(c: Candidate, data: seq<Assignment>): Candidate
  {
    if |data| == 0 then c else Assign(ApplyAll(c, data[..|data| - 1]), data[|data| - 1])
  }

  /** No key occurs twice, as in a dictionary. */
  predicate DistinctKeys(data: seq<Assignment>) {
    forall i, j :: 0 <= i < j < |data| ==> KeyOf(data[i]) != KeyOf(data[j])
  }

  /** `update` changes exactly the given attributes: each item's attribute ends with that
      item's value, an attribute without an item keeps its value, and the fields that are not
      writable never change. */
  lemma {:induction false} ApplyAllEffect(c: Candidate, data: seq<Assignment>)
    requires DistinctKeys(data)
    ensures var r := ApplyAll(c, data);
      && (forall i :: 0 <= i < |data| ==> Read(r, KeyOf(data[i])) == data[i])
      && (forall k :: (forall i :: 0 <= i < |data| ==> KeyOf(data[i]) != k) ==> Read(r, k) == Read(c, k))
      && r.(email := c.email, isActive := c.isActive, createdById := c.createdById) == c
  {
    if |data| > 0 {
      var init := data[..|data| - 1];
      assert DistinctKeys(init);
      ApplyAllEffect(c, init);
      assert forall i :: 0 <= i < |init| ==> init[i] == data[i];
    }
  }

  /** The loop `for attr, value in validated_data.items(): setattr(instance, attr, value)`. */
  method AssignAll(instance: Candidate, data: seq<Assignment>) returns (r: Candidate)
    ensures r == ApplyAll(instance, data)
  {
    r := instance;
    for i := 0 to |data|
      invariant r == ApplyAll(instance, data[..i])
    {
      assert data[..i + 1][..i] == data[..i];
      r := Assign(r, data[i]);
    }
    assert data[..|data|] == data;
  }

  /** `validated_data['created_by_id'] = creator`: an existing item keeps its place and takes
      the new value, otherwise the item is added at the end. */
  function WithCreator(data: seq<Assignment>, creator: string): (r: seq<Assignment>)
    ensures forall i :: 0 <= i < |data| && KeyOf(data[i]) != CreatorKey ==> data[i] in r
    ensures forall a :: a in r ==> a in data || a == CreatorIs(creator)
    ensures CreatorIs(creator) in r
    ensures DistinctKeys(data) ==> DistinctKeys(r)
  {
    if exists i :: 0 <= i < |data| && KeyOf(data[i]) == CreatorKey then
      var r := seq(|data|, i requires 0 <= i < |data| => if KeyOf(data[i]) == CreatorKey then CreatorIs(creator) else data[i]);
      var k :| 0 <= k < |data| && KeyOf(data[k]) == CreatorKey;
      assert r[k] == CreatorIs(creator);
      assert forall i :: 0 <= i < |data| && KeyOf(data[i]) != CreatorKey ==> r[i] == data[i];
      r
    else
      var r := data + [CreatorIs(creator)];
      assert r[|data|] == CreatorIs(creator);
      assert forall i :: 0 <= i < |data| ==> r[i] == data[i];
      r
  }

  /** `Candidate(**validated_data)` after `create` has filed the requesting user as creator. */
  function Construct(data: seq<Assignment>, userId: nat, now: Time, freshId: string): Candidate {
    ApplyAll(Defaults(now, freshId), WithCreator(data, Strings.NatToString(userId)))
  }

  /** A created candidate belongs to the requesting user whatever creator the data named, has
      the given email and active flag or their defaults, and carries a candidate id. */
  lemma {:induction false} CreatedByRequester(docs: seq<Candidate>, data: seq<Assignment>, userId: nat,
                                              now: Time, freshId: string, freshOid: string)
    requires DistinctKeys(data) && freshId != ""
    ensures var r := Saved(docs, Construct(data, userId, now, freshId), now, freshId, freshOid).0;
      r.Ok? ==>
        && r.value.createdById == Strings.NatToString(userId)
        && r.value.candidateId == freshId && r.value.createdAt == now && r.value.updatedAt == now
        && r.value.resumeData == [] && r.value.resumeContentType == DefaultContentType
        && (forall i :: 0 <= i < |data| ==> data[i].EmailIs? ==> r.value.email == data[i].email)
        && (forall i :: 0 <= i < |data| ==> data[i].ActiveIs? ==> r.value.isActive == data[i].active)
        && ((forall i :: 0 <= i < |data| ==> !data[i].ActiveIs?) ==> r.value.isActive)
  {
    ConstructFields(data, userId, now, freshId);
    SavedStamps(docs, Construct(data, userId, now, freshId), now, freshId, freshOid);
  }

  /** The constructed instance, before its save: the requester as creator, the data's email and
      active flag or their defaults, and the defaults for the rest. */
  lemma ConstructFields(data: seq<Assignment>, userId: nat, now: Time, freshId: string)
    requires DistinctKeys(data)
    ensures var c := Construct(data, userId, now, freshId);
      && c.createdById == Strings.NatToString(userId)
      && c.candidateId == freshId && c.createdAt == now
      && c.resumeData == [] && c.resumeContentType == DefaultContentType
      && (forall i :: 0 <= i < |data| ==> data[i].EmailIs? ==> c.email == data[i].email)
      && (forall i :: 0 <= i < |data| ==> data[i].ActiveIs? ==> c.isActive == data[i].active)
      && ((forall i :: 0 <= i < |data| ==> !data[i].ActiveIs?) ==> c.isActive)
  {
    var creator := Strings.NatToString(userId);
    var items := WithCreator(data, creator);
    var d := Defaults(now, freshId);
    var c := Construct(data, userId, now, freshId);
    ApplyAllEffect(d, items);
    var k :| 0 <= k < |items| && items[k] == CreatorIs(creator);
    assert Read(c, CreatorKey) == CreatorIs(creator);
    forall i | 0 <= i < |data| && data[i].EmailIs?
      ensures c.email == data[i].email
    {
      var m :| 0 <= m < |items| && items[m] == data[i];
      assert Read(c, EmailKey) == data[i];
    }
    forall i | 0 <= i < |data| && data[i].ActiveIs?
      ensures c.isActive == data[i].active
    {
      var m :| 0 <= m < |items| && items[m] == data[i];
      assert Read(c, ActiveKey) == data[i];
    }
    if forall i :: 0 <= i < |data| ==> !data[i].ActiveIs? {
      assert forall i :: 0 <= i < |items| ==> KeyOf(items[i]) != ActiveKey;
      assert Read(c, ActiveKey) == Read(d, ActiveKey);
    }
  }

  /** A successful `update` writes the instance with exactly the given attributes changed and
      `updated_at` stamped; identity and every other field are kept. */
  lemma {:induction false} UpdateChangesOnlyGiven(docs: seq<Candidate>, instance: Candidate, data: seq<Assignment>, now: Time)
    requires DistinctKeys(data) && instance.oid != "" && instance.candidateId != ""
    ensures var r := Saved(docs, ApplyAll(instance, data), now, "", "").0;
      r.Ok? ==>
        && (forall i :: 0 <= i < |data| ==> Read(r.value, KeyOf(data[i])) == data[i])
        && (forall k :: (forall i :: 0 <= i < |data| ==> KeyOf(data[i]) != k) ==> Read(r.value, k) == Read(instance, k))
        && r.value.(email := instance.email, isActive := instance.isActive, createdById := instance.createdById,
                    updatedAt := instance.updatedAt) == instance
        && r.value.updatedAt == now
  {
    var c := ApplyAll(instance, data);
    ApplyAllEffect(instance, data);
    SavedStamps(docs, c, now, "", "");
  }

  /** `CandidateSerializer.create` and `CandidateCreateSerializer.create`: the requesting user
      becomes the creator, the document is built and saved. */
  method Create(store: CandidateStore, data: seq<Assignment>, userId: nat, now: Time, freshId: string, freshOid: string)
    returns (r: Result<Candidate, SaveError>)
    requires store.Valid() && freshId != "" && FreshOid(store.docs, freshOid)
    modifies store
    ensures store.Valid()
    ensures (r, store.docs) == Saved(old(store.docs), Construct(data, userId, now, freshId), now, freshId, freshOid)
  {
    var items := WithCreator(data, Strings.NatToString(userId));
    var c := AssignAll(Defaults(now, freshId), items);
    r := store.Save(c, now, freshId, freshOid);
  }

  /** `CandidateSerializer.update`: assign the items, then save. */
  method Update(store: CandidateStore, instance: Candidate, data: seq<Assignment>, now: Time)
    returns (r: Result<Candidate, SaveError>)
    requires store.Valid() && instance in store.docs
    modifies store
    ensures store.Valid()
    ensures (r, store.docs) == Saved(old(store.docs), ApplyAll(instance, data), now, "", "")
  {
    var c := AssignAll(instance, data);
    assert c.oid == instance.oid && c.candidateId == instance.candidateId by {
      KeepsIdentity(instance, data);
    }
    r := store.Save(c, now, "", "");
  }

  /** Assignments never touch the ObjectId or the candidate id. */
  lemma {:induction false} KeepsIdentity(c: Candidate, data: seq<Assignment>)
    ensures ApplyAll(c, data).oid == c.oid && ApplyAll(c, data).candidateId == c.candidateId
  {
    if |data| > 0 {
      KeepsIdentity(c, data[..|data| - 1]);
    }
  }
}
