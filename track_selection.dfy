/**
 * Melodic track selection, deterministic part: which tracks qualify, the
 * shortcut for zero or one qualifying track, and the per-cluster choice of the
 * track with the best melodic score.  The cluster labels (from hierarchical
 * clustering) and the melodic scores are inputs, one per qualifying track.
 */
module TrackSelection {
  import opened Midi

  /** The most clusters the selector asks the clustering for. */
  const MaxClusters: nat := 3

  /** The track has at least one note_on with a non-zero velocity. */
  predicate HasNotes(t: Track) {
    exists j :: 0 <= j < |t| && IsNoteStart(t[j])
  }

  /** Some message of the track is on the percussion channel. */
  predicate IsPercussion(t: Track) {
    exists j :: 0 <= j < |t| && OnPercussionChannel(t[j])
  }

  /** A track is analysed for melody only if it has notes and no percussion. */
  predicate Qualifies(t: Track) {
    HasNotes(t) && !IsPercussion(t)
  }

  /** The indices of the qualifying tracks, in file order. */
  function QualifyingIndices(tracks: seq<Track>): (q: seq<nat>)
    ensures forall k :: 0 <= k < |q| ==> q[k] < |tracks| && Qualifies(tracks[q[k]])
    ensures forall i :: 0 <= i < |tracks| && Qualifies(tracks[i]) ==> i in q
    ensures StrictlyIncreasing(q)
  {
    if tracks == [] then []
    else
      var n := |tracks| - 1;
      assert forall i :: 0 <= i < n ==> tracks[..n][i] == tracks[i];
      QualifyingIndices(tracks[..n]) + (if Qualifies(tracks[n]) then [n] else [])
  }

  /**
   * Among the positions `< n` labelled `c`, the first one with the highest
   * score (Python's `max` keeps the first maximal element).
   */
  function BestInCluster(labels: seq<int>, scores: seq<int>, c: int, n: nat): (r: Option<nat>)
    requires |labels| == |scores| && n <= |labels|
    ensures r.None? <==> forall i :: 0 <= i < n ==> labels[i] != c
    ensures r.Some? ==> r.value < n && labels[r.value] == c
    ensures r.Some? ==> forall i :: 0 <= i < n && labels[i] == c ==> scores[i] <= scores[r.value]
    ensures r.Some? ==> forall i :: 0 <= i < r.value && labels[i] == c ==> scores[i] < scores[r.value]
  {
    if n == 0 then None
    else
      var b := BestInCluster(labels, scores, c, n - 1);
      if labels[n - 1] != c then b
      else if b.None? || scores[n - 1] > scores[b.value] then Some(n - 1)
      else b
  }

  /** One winner per cluster id `1..k` that has members, in cluster-id order. */
  function ClusterWinners(labels: seq<int>, scores: seq<int>, k: nat): (w: seq<nat>)
    requires |labels| == |scores|
    ensures |w| <= k
    ensures forall m :: 0 <= m < |w| ==> w[m] < |labels| && 1 <= labels[w[m]] <= k
    ensures forall m, m' :: 0 <= m < m' < |w| ==> labels[w[m]] < labels[w[m']]
  {
    if k == 0 then []
    else
      var w := ClusterWinners(labels, scores, k - 1);
      match BestInCluster(labels, scores, k, |labels|)
      case None => w
      case Some(p) => w + [p]
  }

  /**
   * Every cluster id `1..k` that labels some track has exactly the winner
   * the score argmax picks: the first member with the highest score.
   */
  lemma {:induction false} ClusterWinnersAreBest(labels: seq<int>, scores: seq<int>, k: nat, i: nat)
    requires |labels| == |scores| && i < |labels| && 1 <= labels[i] <= k
    ensures exists m :: 0 <= m < |ClusterWinners(labels, scores, k)| &&
              Some(ClusterWinners(labels, scores, k)[m]) == BestInCluster(labels, scores, labels[i], |labels|)
  {
    var w := ClusterWinners(labels, scores, k);
    var w' := ClusterWinners(labels, scores, k - 1);
    if labels[i] == k {
      var b := BestInCluster(labels, scores, k, |labels|);
      assert b.Some? && w == w' + [b.value];
      assert w[|w'|] == b.value;
    } else {
      ClusterWinnersAreBest(labels, scores, k - 1, i);
      var m :| 0 <= m < |w'| && Some(w'[m]) == BestInCluster(labels, scores, labels[i], |labels|);
      assert w[m] == w'[m];
    }
  }

  /** The tracks `q[w[m]]` that the winners `w` stand for, in order. */
  function Pick(q: seq<nat>, w: seq<nat>): (sel: seq<nat>)
    requires forall m :: 0 <= m < |w| ==> w[m] < |q|
    ensures |sel| == |w| && forall m :: 0 <= m < |w| ==> sel[m] == q[w[m]]
  {
    if w == [] then [] else Pick(q, w[..|w| - 1]) + [q[w[|w| - 1]]]
  }

  lemma PickMembers(q: seq<nat>, w: seq<nat>, b: nat)
    requires forall m :: 0 <= m < |w| ==> w[m] < |q|
    requires b in w
    ensures q[b] in Pick(q, w)
  {
    var m :| 0 <= m < |w| && w[m] == b;
    assert Pick(q, w)[m] == q[b];
  }

  lemma AllClusterWinnersAreBest(labels: seq<int>, scores: seq<int>, k: nat)
    requires |labels| == |scores|
    ensures forall i :: 0 <= i < |labels| && 1 <= labels[i] <= k ==>
              BestInCluster(labels, scores, labels[i], |labels|).value in ClusterWinners(labels, scores, k)
  {
    forall i | 0 <= i < |labels| && 1 <= labels[i] <= k
      ensures BestInCluster(labels, scores, labels[i], |labels|).value in ClusterWinners(labels, scores, k)
    {
      ClusterWinnersAreBest(labels, scores, k, i);
    }
  }

  /**
   * The selected track indices.  With no qualifying track the result is
   * empty; with exactly one it is that track, and the cluster labels and
   * scores are not consulted; otherwise the best-scoring track of every
   * cluster `1..min(3, n)` that has members.
   */
  function SelectMelodyTracks(tracks: seq<Track>, labels: seq<int>, scores: seq<int>): (sel: seq<nat>)
    requires |labels| == |QualifyingIndices(tracks)| && |scores| == |labels|
    ensures var q := QualifyingIndices(tracks); |q| == 0 ==> sel == []
    ensures var q := QualifyingIndices(tracks); |q| == 1 ==> sel == [q[0]]
    ensures |sel| <= MaxClusters
    ensures forall m :: 0 <= m < |sel| ==> sel[m] < |tracks| && Qualifies(tracks[sel[m]])
    ensures var q := QualifyingIndices(tracks);
            var k := if |q| < MaxClusters then |q| else MaxClusters;
            |q| >= 2 ==>
              forall i :: 0 <= i < |q| && 1 <= labels[i] <= k ==>
                q[BestInCluster(labels, scores, labels[i], |labels|).value] in sel
  {
    var q := QualifyingIndices(tracks);
    if |q| == 0 then []
    else if |q| == 1 then [q[0]]
    else
      var k := if |q| < MaxClusters then |q| else MaxClusters;
      var w := ClusterWinners(labels, scores, k);
      AllClusterWinnersAreBest(labels, scores, k);
      forall i | 0 <= i < |q| && 1 <= labels[i] <= k
        ensures q[BestInCluster(labels, scores, labels[i], |labels|).value] in Pick(q, w)
      {
        PickMembers(q, w, BestInCluster(labels, scores, labels[i], |labels|).value);
      }
      Pick(q, w)
  }
}
