/**
 * The step of `semantic_cluster_test.py` that keeps, from the model's
 * decoded answer, the clusters with more than one member. The answer is
 * a JSON object; only the parts this step reads are modelled: an optional
 * `clusters` list whose entries have an optional `canonical_id` and an
 * optional `member_field_ids` list.
 */
module Clusters {
  import opened Wrappers

  datatype Cluster = Cluster(canonicalId: Option<string>, memberFieldIds: Option<seq<string>>)

  /** The decoded answer: `clusters` is `None` when the key is absent. */
  datatype Answer = Answer(clusters: Option<seq<Cluster>>)

  /** `out.get("clusters", [])`. */
  function ClustersOf(out: Answer): seq<Cluster>
  {
    if out.clusters.Some? then out.clusters.value else []
  }

  /** `len(c.get("member_field_ids", []))`: an absent list counts as no members. */
  function MemberCount(c: Cluster): nat
  {
    if c.memberFieldIds.Some? then |c.memberFieldIds.value| else 0
  }

  /** The list comprehension keeping the clusters with more than one member, in order. */
  function MultiMember(cs: seq<Cluster>): seq<Cluster>
  {
    if |cs| == 0 then []
    else MultiMember(cs[..|cs| - 1]) + (if MemberCount(cs[|cs| - 1]) > 1 then [cs[|cs| - 1]] else [])
  }

  /** The clusters the step reports, `multi`. */
  function Multi(out: Answer): seq<Cluster>
  {
    MultiMember(ClustersOf(out))
  }

  // ---- properties ----

  /** A cluster is kept exactly when it is in the list and has more than one member. */
  lemma {:induction false} MultiMemberSpec(cs: seq<Cluster>)
    ensures forall c :: c in MultiMember(cs) <==> c in cs && MemberCount(c) > 1
    ensures |MultiMember(cs)| <= |cs|
  {
    if |cs| > 0 {
      MultiMemberSpec(cs[..|cs| - 1]);
      assert cs == cs[..|cs| - 1] + [cs[|cs| - 1]];
    }
  }

  /** Filtering a concatenation filters each part, so the kept clusters stay in their original order. */
  lemma {:induction false} MultiMemberAppend(a: seq<Cluster>, b: seq<Cluster>)
    ensures MultiMember(a + b) == MultiMember(a) + MultiMember(b)
  {
    if |b| == 0 {
      assert a + b == a;
    } else {
      assert (a + b)[..|a + b| - 1] == a + b[..|b| - 1];
      MultiMemberAppend(a, b[..|b| - 1]);
    }
  }

  /** A single cluster is kept on its own exactly when it has more than one member. */
  lemma MultiMemberSingle(c: Cluster)
    ensures MultiMember([c]) == (if MemberCount(c) > 1 then [c] else [])
  {
    assert [c][..0] == [];
  }

  /** Nothing is dropped when every cluster has several members. */
  lemma {:induction false} MultiMemberAll(cs: seq<Cluster>)
    requires forall i :: 0 <= i < |cs| ==> MemberCount(cs[i]) > 1
    ensures MultiMember(cs) == cs
  {
    if |cs| > 0 {
      MultiMemberAll(cs[..|cs| - 1]);
      assert cs == cs[..|cs| - 1] + [cs[|cs| - 1]];
    }
  }

  /** Filtering again changes nothing. */
  lemma MultiMemberIdempotent(cs: seq<Cluster>)
    ensures MultiMember(MultiMember(cs)) == MultiMember(cs)
  {
    var r := MultiMember(cs);
    MultiMemberSpec(cs);
    forall i | 0 <= i < |r| ensures MemberCount(r[i]) > 1 {
      assert r[i] in r;
    }
    MultiMemberAll(r);
  }

  /**
   * An answer without `clusters` reports nothing, and a cluster without
   * `member_field_ids` is never reported.
   */
  lemma MultiMissing(out: Answer)
    ensures out.clusters.None? ==> Multi(out) == []
    ensures forall c :: c in Multi(out) ==> c.memberFieldIds.Some? && |c.memberFieldIds.value| > 1
  {
    MultiMemberSpec(ClustersOf(out));
  }
}
