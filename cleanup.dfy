/** The `cleanup_candidates` management command: the candidates grouped by the recruiter who
    created them, the size of each group, and with `--delete-all` the deletion of every candidate
    with a count. */
module Cleanup {
  import opened Candidates

  /** The candidates of one recruiter, in iteration order. */
  function CreatedBy(cs: seq<Candidate>, creator: string): (r: seq<Candidate>)
    ensures |r| <= |cs|
    ensures forall c :: c in r <==> c in cs && c.createdById == creator
  {
    if |cs| == 0 then []
    else
      var init := cs[..|cs| - 1];
      var last := cs[|cs| - 1];
      assert cs == init + [last];
      CreatedBy(init, creator) + (if last.createdById == creator then [last] else [])
  }

  /** The recruiters in order of their first candidate, as `user_groups`' keys are. */
  function Creators(cs: seq<Candidate>): seq<string> {
    if |cs| == 0 then []
    else
      var init := cs[..|cs| - 1];
      var k := cs[|cs| - 1].createdById;
      if k in Creators(init) then Creators(init) else Creators(init) + [k]
  }

  /** `user_groups` after the loop: each recruiter's candidates. */
  function Groups(cs: seq<Candidate>): map<string, seq<Candidate>> {
    if |cs| == 0 then map[]
    else
      var g := Groups(cs[..|cs| - 1]);
      var c := cs[|cs| - 1];
      g[c.createdById := (if c.createdById in g then g[c.createdById] else []) + [c]]
  }

  predicate Distinct(ks: seq<string>) {
    forall i, j :: 0 <= i < j < |ks| ==> ks[i] != ks[j]
  }

  /** The recruiters are listed once each, and they are exactly the candidates' recruiters. */
  lemma {:induction false} CreatorsListed(cs: seq<Candidate>)
    ensures Distinct(Creators(cs))
    ensures forall k :: k in Creators(cs) <==> exists i :: 0 <= i < |cs| && cs[i].createdById == k
  {
    if |cs| > 0 {
      var init := cs[..|cs| - 1];
      CreatorsListed(init);
      assert forall i :: 0 <= i < |init| ==> init[i] == cs[i];
    }
  }

  /** The groups are keyed by exactly the recruiters, and each group holds that recruiter's
      candidates in order. */
  lemma {:induction false} GroupsAreCreatedBy(cs: seq<Candidate>)
    ensures forall k :: k in Groups(cs) <==> k in Creators(cs)
    ensures forall k :: k in Groups(cs) ==> Groups(cs)[k] == CreatedBy(cs, k)
  {
    if |cs| > 0 {
      var init := cs[..|cs| - 1];
      var c := cs[|cs| - 1];
      GroupsAreCreatedBy(init);
      CreatorsListed(init);
      forall k | k in Groups(cs)
        ensures Groups(cs)[k] == CreatedBy(cs, k)
      {
        if k == c.createdById && k !in Groups(init) {
          CreatedByNone(init, k);
        }
      }
    }
  }

  lemma {:induction false} CreatedByNone(cs: seq<Candidate>, k: string)
    requires forall i :: 0 <= i < |cs| ==> cs[i].createdById != k
    ensures CreatedBy(cs, k) == []
  {
    if |cs| > 0 {
      CreatedByNone(cs[..|cs| - 1], k);
    }
  }

  lemma {:induction false} CountSumNone(keys: seq<string>)
    ensures CountSum([], keys) == 0
  {
    if |keys| > 0 {
      CountSumNone(keys[1..]);
    }
  }

  function SizeSum(groups: map<string, seq<Candidate>>, keys: seq<string>): nat {
    if |keys| == 0 then 0
    else (if keys[0] in groups then |groups[keys[0]]| else 0) + SizeSum(groups, keys[1..])
  }

  /** The group sizes `Summary by User` reports add up to the total. */
  lemma {:induction false} GroupSizesSum(cs: seq<Candidate>)
    ensures SizeSum(Groups(cs), Creators(cs)) == |cs|
  {
    GroupsAreCreatedBy(cs);
    CreatorsListed(cs);
    CreatedBySum(cs, Creators(cs));
    SizeSumOfCreatedBy(cs, Creators(cs));
  }

  function CountSum(cs: seq<Candidate>, keys: seq<string>): nat {
    if |keys| == 0 then 0 else |CreatedBy(cs, keys[0])| + CountSum(cs, keys[1..])
  }

  lemma {:induction false} SizeSumOfCreatedBy(cs: seq<Candidate>, keys: seq<string>)
    requires forall k :: k in keys ==> k in Groups(cs) && Groups(cs)[k] == CreatedBy(cs, k)
    ensures SizeSum(Groups(cs), keys) == CountSum(cs, keys)
  {
    if |keys| > 0 {
      SizeSumOfCreatedBy(cs, keys[1..]);
    }
  }

  /** Over distinct keys that cover every recruiter, the per-recruiter counts add up to the
      number of candidates. */
  lemma {:induction false} CreatedBySum(cs: seq<Candidate>, keys: seq<string>)
    requires Distinct(keys)
    requires forall i :: 0 <= i < |cs| ==> cs[i].createdById in keys
    ensures CountSum(cs, keys) == |cs|
  {
    if |cs| == 0 {
      CountSumNone(keys);
    } else {
      var init := cs[..|cs| - 1];
      var c := cs[|cs| - 1];
      assert forall i :: 0 <= i < |init| ==> init[i] == cs[i];
      assert cs == init + [c];
      CreatedBySum(init, keys);
      CountSumStep(init, c, keys);
      assert c.createdById in keys;
      assert CountSum(cs, keys) == CountSum(init, keys) + 1;
    }
  }

  /** Adding one candidate adds one to the count of exactly one key. */
  lemma {:induction false} CountSumStep(init: seq<Candidate>, c: Candidate, keys: seq<string>)
    requires Distinct(keys)
    ensures CountSum(init + [c], keys) == CountSum(init, keys) + (if c.createdById in keys then 1 else 0)
  {
    var cs := init + [c];
    assert cs[..|cs| - 1] == init;
    if |keys| > 0 {
      assert Distinct(keys[1..]) by {
        assert forall i :: 0 <= i < |keys[1..]| ==> keys[1..][i] == keys[i + 1];
      }
      CountSumStep(init, c, keys[1..]);
      if c.createdById == keys[0] {
        assert c.createdById !in keys[1..] by {
          assert forall i :: 0 <= i < |keys[1..]| ==> keys[1..][i] == keys[i + 1];
        }
      } else {
        assert c.createdById in keys <==> c.createdById in keys[1..] by {
          assert keys == [keys[0]] + keys[1..];
        }
      }
    }
  }

  /** What the command reports: nothing to do, or the grouping and the number deleted. */
  datatype Report =
    | NoCandidates
    | Summary(total: nat, creators: seq<string>, groups: map<string, seq<Candidate>>, deleted: nat)

  /** `Command.handle`: count and group the candidates and, with `--delete-all`, delete each one. */
  method Handle(store: CandidateStore, deleteAll: bool) returns (report: Report)
    requires store.Valid()
    modifies store
    ensures store.Valid()
    ensures |old(store.docs)| == 0 ==> report == NoCandidates && store.docs == old(store.docs)
    ensures |old(store.docs)| > 0 ==>
              && report == Summary(|old(store.docs)|, Creators(old(store.docs)), Groups(old(store.docs)),
                                   if deleteAll then |old(store.docs)| else 0)
              && store.docs == (if deleteAll then [] else old(store.docs))
  {
    var candidates := store.docs;
    var total := |candidates|;
    if total == 0 {
      return NoCandidates;
    }
    var groups: map<string, seq<Candidate>> := map[];
    var creators: seq<string> := [];
    for i := 0 to total
      invariant groups == Groups(candidates[..i]) && creators == Creators(candidates[..i])
      invariant store.docs == candidates
    {
      assert candidates[..i + 1][..i] == candidates[..i];
      var createdBy := candidates[i].createdById;
      GroupsAreCreatedBy(candidates[..i]);
      if createdBy !in groups {
        groups := groups[createdBy := []];
        creators := creators + [createdBy];
      }
      groups := groups[createdBy := groups[createdBy] + [candidates[i]]];
    }
    assert candidates[..total] == candidates;
    var deletedCount := 0;
    if deleteAll {
      for i := 0 to total
        invariant store.Valid() && store.docs == candidates[i..]
        invariant deletedCount == i
      {
        DeleteFirst(candidates[i..]);
        store.Delete(candidates[i].oid);
        assert candidates[i..][1..] == candidates[i + 1..];
        deletedCount := deletedCount + 1;
      }
    }
    report := Summary(total, creators, groups, deletedCount);
  }

  /** Removing the first document's ObjectId leaves the rest, since ObjectIds are distinct. */
  lemma DeleteFirst(docs: seq<Candidate>)
    requires Inv(docs) && |docs| > 0
    ensures Without(docs, docs[0].oid) == docs[1..]
  {
    WithoutAbsent(docs[1..], docs[0].oid);
  }

  lemma {:induction false} WithoutAbsent(docs: seq<Candidate>, oid: string)
    requires forall i :: 0 <= i < |docs| ==> docs[i].oid != oid
    ensures Without(docs, oid) == docs
  {
    if |docs| > 0 {
      WithoutAbsent(docs[1..], oid);
    }
  }
}
