/** Where cluster bytes live, once each (surface.h, surface.cpp): the ids that cells carry and the differ
    compares. */
module Pools {
  import opened Wrappers

  type Cluster = seq<Byte>

  const SEEDED: nat := 129

  /** Every cluster has one id: equal ids are equal bytes, which is what lets cells be compared by id. */
  ghost predicate OneId(clusters: seq<Cluster>) {
    forall i, j :: 0 <= i < j < |clusters| ==> clusters[i] != clusters[j]
  }

  /** The ids fixed beforehand: 0 for the empty continuation marker, and one for each ASCII byte. */
  ghost predicate Seeded(clusters: seq<Cluster>) {
    && SEEDED <= |clusters| && clusters[0] == []
    && forall i :: 1 <= i < SEEDED ==> clusters[i] == [i - 1]
  }

  /** An ASCII byte's id is arithmetic. */
  predicate IsSeed(cluster: Cluster) {
    cluster == [] || (|cluster| == 1 && cluster[0] < 128)
  }

  /** The clusters kept once one more has been taken in. */
  function Interned(clusters: seq<Cluster>, cluster: Cluster): seq<Cluster> {
    if cluster in clusters then clusters else clusters + [cluster]
  }

  function InternedAll(clusters: seq<Cluster>, texts: seq<Cluster>): seq<Cluster> {
    if texts == [] then clusters
    else Interned(InternedAll(clusters, texts[..|texts| - 1]), texts[|texts| - 1])
  }

  ghost function IdOf(clusters: seq<Cluster>, cluster: Cluster): (id: nat)
    requires cluster in clusters
    ensures id < |clusters| && clusters[id] == cluster
  {
    var id :| 0 <= id < |clusters| && clusters[id] == cluster;
    id
  }

  /** The id given out for the i-th of the texts when it was taken in. */
  ghost function Given(clusters: seq<Cluster>, texts: seq<Cluster>, i: nat): nat
    requires i < |texts|
  {
    assert texts[..i + 1][..i] == texts[..i];
    IdOf(InternedAll(clusters, texts[..i + 1]), texts[i])
  }

  class Pool {
    var clusters: seq<Cluster>
    var byBytes: map<Cluster, nat>

    ghost predicate Valid()
      reads this
    {
      && Seeded(clusters) && OneId(clusters)
      && (forall c :: c in byBytes ==> SEEDED <= byBytes[c] < |clusters| && clusters[byBytes[c]] == c)
      && (forall i :: SEEDED <= i < |clusters| ==> clusters[i] in byBytes)
    }

    constructor ()
      ensures Valid() && |clusters| == SEEDED
    {
      byBytes := map[];
      clusters := [];
      new;
      clusters := [[]];
      for byte := 0 to 128
        invariant |clusters| == 1 + byte && clusters[0] == [] && byBytes == map[]
        invariant forall i :: 1 <= i <= byte ==> clusters[i] == [i - 1]
      {
        clusters := clusters + [[byte]];
      }
    }

    /** The id of a cluster, taken in at its first sighting; the ids given out before keep their bytes. */
    method Intern(cluster: Cluster) returns (id: nat)
      requires Valid()
      modifies this
      ensures Valid() && clusters == Interned(old(clusters), cluster)
      ensures old(clusters) <= clusters && id == IdOf(clusters, cluster)
    {
      if cluster == [] {
        return 0;
      }
      if |cluster| == 1 && cluster[0] < 128 {
        assert clusters[1 + cluster[0]] == cluster;
        return 1 + cluster[0];
      }
      NotSeeded(cluster);
      if cluster in byBytes {
        return byBytes[cluster];
      }
      id := |clusters|;
      clusters := clusters + [cluster];
      byBytes := byBytes[cluster := id];
    }

    lemma NotSeeded(cluster: Cluster)
      requires Valid() && !IsSeed(cluster)
      ensures cluster in clusters <==> cluster in byBytes
      ensures forall i :: 0 <= i < SEEDED ==> clusters[i] != cluster
    {
    }

    method ClusterOf(id: nat) returns (cluster: Cluster)
      requires Valid()
      ensures cluster == if id < |clusters| then clusters[id] else []
    {
      return if id < |clusters| then clusters[id] else [];
    }
  }

  /** Two ids are the same exactly when their bytes are, however much was interned in between: a cell
      keeps comparing right against the cells of every later surface. */
  lemma SameIdIffSameBytes(before: seq<Cluster>, now: seq<Cluster>, a: nat, b: nat)
    requires before <= now && OneId(now) && a < |before| && b < |now|
    ensures a == b <==> before[a] == now[b]
  {
    assert before[a] == now[a];
  }

  lemma {:induction false} InternedGrows(clusters: seq<Cluster>, texts: seq<Cluster>, i: nat)
    requires OneId(clusters) && i <= |texts|
    ensures OneId(InternedAll(clusters, texts))
    ensures clusters <= InternedAll(clusters, texts[..i]) <= InternedAll(clusters, texts)
    decreases |texts|
  {
    if i == |texts| {
      assert texts[..i] == texts;
    }
    if texts != [] {
      var n := |texts| - 1;
      InternedGrows(clusters, texts[..n], if i <= n then i else n);
      assert i <= n ==> texts[..n][..i] == texts[..i];
    }
  }

  /** Whatever is taken in, in any order and however often: every text reads back, at the end, under the id
      it was given at its time, two were given one id exactly when they are the same bytes, and the ids
      given before all of it keep their bytes too. */
  lemma ReadBack(clusters: seq<Cluster>, texts: seq<Cluster>, i: nat, j: nat)
    requires OneId(clusters) && i < |texts| && j < |texts|
    ensures var now, a, b := InternedAll(clusters, texts), Given(clusters, texts, i), Given(clusters, texts, j);
      && clusters <= now && a < |now| && now[a] == texts[i]
      && (a == b <==> texts[i] == texts[j])
  {
    hide InternedAll;
    StandsFor(clusters, texts, i);
    StandsFor(clusters, texts, j);
  }

  lemma StandsFor(clusters: seq<Cluster>, texts: seq<Cluster>, i: nat)
    requires OneId(clusters) && i < |texts|
    ensures var now, a := InternedAll(clusters, texts), Given(clusters, texts, i);
      clusters <= now && OneId(now) && a < |now| && now[a] == texts[i]
  {
    assert texts[..i + 1][..i] == texts[..i];
    InternedGrows(clusters, texts, i + 1);
  }
}
