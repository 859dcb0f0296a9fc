/** The knowledge-base matcher of `AiServiceSimulator.findRelevantEntriesBySimilarity`:
    score every entry, keep those at or above the threshold, sort them by
    descending score with a stable sort, keep the first three.

    The similarity metric (Jaro-Winkler in the Java code) is a parameter: the
    model proves nothing about it, only about the selection built on it. Entries
    are handled through their positions in the knowledge base, as the Java
    stream handles them through `Map.entry(entry, score)` pairs, so that equal
    entries at different positions stay distinct. */
module Relevance {
  import opened Text
  import opened Domain

  const SimilarityThreshold: real := 0.70
  const MaxEntries: nat := 3

  /** The score the matcher gives one entry: the user question lower-cased and
      trimmed against the entry's question lower-cased but not trimmed. */
  function Score(similarity: (string, string) -> real, question: string, entry: KnowledgeEntry): real {
    similarity(Normalize(question), Lower(entry.question))
  }

  function Scores(similarity: (string, string) -> real, question: string, kb: seq<KnowledgeEntry>): (r: seq<real>)
    ensures |r| == |kb|
  {
    seq(|kb|, i requires 0 <= i < |kb| => Score(similarity, question, kb[i]))
  }

  predicate Qualifies(scores: seq<real>, i: nat) {
    i < |scores| && scores[i] >= SimilarityThreshold
  }

  predicate InRange(scores: seq<real>, s: seq<nat>) {
    forall k :: 0 <= k < |s| ==> s[k] < |scores|
  }

  predicate StrictlyIncreasing(s: seq<nat>) {
    forall a, b :: 0 <= a < b < |s| ==> s[a] < s[b]
  }

  /** `x` comes before `y` in the stably sorted stream: a higher score first,
      and on equal scores the earlier knowledge-base position first. */
  predicate Precedes(scores: seq<real>, x: nat, y: nat) {
    x < |scores| && y < |scores| &&
    (scores[x] > scores[y] || (scores[x] == scores[y] && x < y))
  }

  predicate Ranked(scores: seq<real>, s: seq<nat>) {
    forall a, b :: 0 <= a < b < |s| ==> Precedes(scores, s[a], s[b])
  }

  /** The `filter` stage: positions below `n` whose score reaches the
      threshold, in knowledge-base order. */
  function Qualifying(scores: seq<real>, n: nat): (r: seq<nat>)
    requires n <= |scores|
    ensures forall k :: 0 <= k < |r| ==> r[k] < n && Qualifies(scores, r[k])
    ensures forall i :: 0 <= i < n && Qualifies(scores, i) ==> i in r
    ensures StrictlyIncreasing(r)
  {
    if n == 0 then []
    else Qualifying(scores, n - 1) + (if Qualifies(scores, n - 1) then [n - 1] else [])
  }

  /** One step of a stable insertion sort on score alone: `x` goes after every
      element whose score is at least its own. */
  function Insert(scores: seq<real>, x: nat, s: seq<nat>): (r: seq<nat>)
    requires x < |scores| && InRange(scores, s)
    ensures |r| == |s| + 1 && multiset(r) == multiset(s) + multiset{x}
    ensures InRange(scores, r)
  {
    if s == [] then [x]
    else if scores[s[0]] >= scores[x] then
      assert s == [s[0]] + s[1..];
      [s[0]] + Insert(scores, x, s[1..])
    else [x] + s
  }

  /** The `sorted(comparingByValue().reversed())` stage. */
  function SortByScore(scores: seq<real>, s: seq<nat>): (r: seq<nat>)
    requires InRange(scores, s)
    ensures |r| == |s| && multiset(r) == multiset(s)
    ensures InRange(scores, r)
  {
    if s == [] then []
    else
      assert s == s[..|s| - 1] + [s[|s| - 1]];
      Insert(scores, s[|s| - 1], SortByScore(scores, s[..|s| - 1]))
  }

  /** Inserting a position later than every position already sorted keeps the
      sequence ranked: this is where stability comes from. */
  lemma {:induction false} InsertRanked(scores: seq<real>, x: nat, s: seq<nat>)
    requires x < |scores| && InRange(scores, s) && Ranked(scores, s)
    requires forall k :: 0 <= k < |s| ==> s[k] < x
    ensures Ranked(scores, Insert(scores, x, s))
  {
    if s == [] {
    } else if scores[s[0]] >= scores[x] {
      var rest := Insert(scores, x, s[1..]);
      InsertRanked(scores, x, s[1..]);
      HeadPrecedesInsert(scores, x, s);
      forall a, b | 0 <= a < b < |rest| + 1 ensures Precedes(scores, ([s[0]] + rest)[a], ([s[0]] + rest)[b]) {
        if a > 0 {
          assert ([s[0]] + rest)[a] == rest[a - 1];
        }
      }
    } else {
      forall a, b | 0 <= a < b < |s| + 1 ensures Precedes(scores, ([x] + s)[a], ([x] + s)[b]) {
        if a == 0 {
          assert b - 1 == 0 || Precedes(scores, s[0], s[b - 1]);
        }
      }
    }
  }

  /** When `x` goes after the head of a ranked sequence, the head precedes
      everything the insertion into the tail produces. */
  lemma HeadPrecedesInsert(scores: seq<real>, x: nat, s: seq<nat>)
    requires x < |scores| && InRange(scores, s) && Ranked(scores, s) && s != []
    requires forall k :: 0 <= k < |s| ==> s[k] < x
    requires scores[s[0]] >= scores[x]
    ensures forall k :: 0 <= k < |Insert(scores, x, s[1..])| ==> Precedes(scores, s[0], Insert(scores, x, s[1..])[k])
  {
    var rest := Insert(scores, x, s[1..]);
    forall k | 0 <= k < |rest| ensures Precedes(scores, s[0], rest[k]) {
      assert rest[k] in multiset(s[1..]) + multiset{x};
      if rest[k] != x {
        var j :| 0 <= j < |s[1..]| && s[1..][j] == rest[k];
        assert Precedes(scores, s[0], s[j + 1]);
      }
    }
  }

  lemma {:induction false} SortByScoreCorrect(scores: seq<real>, s: seq<nat>)
    requires InRange(scores, s) && StrictlyIncreasing(s)
    ensures Ranked(scores, SortByScore(scores, s))
  {
    if s != [] {
      var init := s[..|s| - 1];
      var sorted := SortByScore(scores, init);
      SortByScoreCorrect(scores, init);
      forall k | 0 <= k < |sorted| ensures sorted[k] < s[|s| - 1] {
        assert sorted[k] in multiset(init);
        var j :| 0 <= j < |init| && init[j] == sorted[k];
      }
      InsertRanked(scores, s[|s| - 1], sorted);
    }
  }

  /** The positions the matcher returns: qualifying, sorted, first three. */
  function RelevantPositions(scores: seq<real>): (r: seq<nat>)
    ensures |r| <= MaxEntries && InRange(scores, r)
  {
    var qualifying := Qualifying(scores, |scores|);
    var sorted := SortByScore(scores, qualifying);
    sorted[..if |sorted| < MaxEntries then |sorted| else MaxEntries]
  }

  /** `findRelevantEntriesBySimilarity`: an empty knowledge base short-cuts to
      the empty list; otherwise the entries at the relevant positions. */
  function FindRelevantEntries(similarity: (string, string) -> real, question: string,
                               kb: seq<KnowledgeEntry>): (r: seq<KnowledgeEntry>)
    ensures |r| <= MaxEntries
    ensures forall k :: 0 <= k < |r| ==> r[k] in kb
  {
    if kb == [] then []
    else EntriesAt(kb, RelevantPositions(Scores(similarity, question, kb)))
  }

  /** The `map(Map.Entry::getKey)` stage: the entries at the given positions. */
  function EntriesAt(kb: seq<KnowledgeEntry>, positions: seq<nat>): (r: seq<KnowledgeEntry>)
    requires forall k :: 0 <= k < |positions| ==> positions[k] < |kb|
    ensures |r| == |positions| && forall k :: 0 <= k < |r| ==> r[k] == kb[positions[k]]
  {
    seq(|positions|, k requires 0 <= k < |positions| => kb[positions[k]])
  }

  /** A ranked permutation of the qualifying positions, cut after its first
      `n` elements: the cut keeps only qualifying positions, and everything
      cut away ranks after everything kept. */
  lemma {:induction false} PrefixOfRanking(scores: seq<real>, sorted: seq<nat>, n: nat)
    requires n <= |sorted| && Ranked(scores, sorted)
    requires multiset(sorted) == multiset(Qualifying(scores, |scores|))
    ensures forall k :: 0 <= k < n ==> Qualifies(scores, sorted[k])
    ensures forall i: nat :: Qualifies(scores, i) ==>
              i in sorted[..n] || forall k :: 0 <= k < n ==> Precedes(scores, sorted[k], i)
  {
    var qualifying := Qualifying(scores, |scores|);
    forall k | 0 <= k < n ensures Qualifies(scores, sorted[k]) {
      assert sorted[k] in multiset(qualifying);
    }
    forall i: nat | Qualifies(scores, i)
      ensures i in sorted[..n] || forall k :: 0 <= k < n ==> Precedes(scores, sorted[k], i)
    {
      assert i in multiset(qualifying);
      var j :| 0 <= j < |sorted| && sorted[j] == i;
      if j < n {
        assert sorted[..n][j] == i;
      }
    }
  }

  /** How many positions `limit(3)` lets through: all the qualifying ones,
      but no more than three. */
  function SelectedCount(scores: seq<real>): nat {
    var n := |Qualifying(scores, |scores|)|;
    if n < MaxEntries then n else MaxEntries
  }

  /** Everything the matcher promises about the positions it selects: exactly
      as many as `limit(3)` lets through; each at or above the threshold; in
      the stable descending order; all of the qualifying ones when there are
      at most three; and every qualifying position left out ranks after every
      one returned (so it scores no higher than the lowest returned score). */
  lemma RelevantPositionsCorrect(scores: seq<real>)
    ensures var r := RelevantPositions(scores);
      && |r| == SelectedCount(scores)
      && (forall k :: 0 <= k < |r| ==> Qualifies(scores, r[k]))
      && Ranked(scores, r)
      && (|Qualifying(scores, |scores|)| <= MaxEntries ==>
            forall i: nat :: Qualifies(scores, i) ==> i in r)
      && (forall i: nat :: Qualifies(scores, i) && i !in r ==>
            forall k :: 0 <= k < |r| ==> Precedes(scores, r[k], i))
  {
    var qualifying := Qualifying(scores, |scores|);
    var sorted := SortByScore(scores, qualifying);
    SortByScoreCorrect(scores, qualifying);
    var r := RelevantPositions(scores);
    assert r == sorted[..|r|];
    PrefixOfRanking(scores, sorted, |r|);
    if |qualifying| <= MaxEntries {
      assert r == sorted;
      forall i: nat | Qualifies(scores, i) ensures i in r {
        assert i < |scores|;
        assert i in qualifying;
        assert i in multiset(sorted);
      }
    }
  }

  /** The same promises stated on the entries `findRelevantEntriesBySimilarity`
      returns: no entry from an empty knowledge base; as many entries as
      qualify, but at most three; each taken from the knowledge base and
      scoring at least 0.70; scores non-increasing along the list; every
      qualifying entry when at most three qualify; and a qualifying entry
      left out scores no higher than any entry returned. */
  lemma FindRelevantEntriesCorrect(similarity: (string, string) -> real, question: string,
                                   kb: seq<KnowledgeEntry>)
    ensures var r := FindRelevantEntries(similarity, question, kb);
      var scores := Scores(similarity, question, kb);
      && (kb == [] ==> r == [])
      && |r| == SelectedCount(scores)
      && (forall k :: 0 <= k < |r| ==> r[k] in kb)
      && (forall k :: 0 <= k < |r| ==> Score(similarity, question, r[k]) >= SimilarityThreshold)
      && (forall a, b :: 0 <= a < b < |r| ==>
            Score(similarity, question, r[a]) >= Score(similarity, question, r[b]))
      && (|Qualifying(scores, |scores|)| <= MaxEntries ==>
            forall i :: 0 <= i < |kb| && Score(similarity, question, kb[i]) >= SimilarityThreshold ==> kb[i] in r)
      && (forall i :: 0 <= i < |kb| && Score(similarity, question, kb[i]) >= SimilarityThreshold && kb[i] !in r ==>
            forall k :: 0 <= k < |r| ==> Score(similarity, question, r[k]) >= Score(similarity, question, kb[i]))
  {
    if kb != [] {
      var scores := Scores(similarity, question, kb);
      var positions := RelevantPositions(scores);
      RelevantPositionsCorrect(scores);
      var r := EntriesAt(kb, positions);
      assert FindRelevantEntries(similarity, question, kb) == r;
      forall k | 0 <= k < |r|
        ensures r[k] in kb && Score(similarity, question, r[k]) >= SimilarityThreshold
      {
        assert r[k] == kb[positions[k]] && scores[positions[k]] == Score(similarity, question, r[k]);
        assert Qualifies(scores, positions[k]);
      }
      forall a, b | 0 <= a < b < |r|
        ensures Score(similarity, question, r[a]) >= Score(similarity, question, r[b])
      {
        assert Precedes(scores, positions[a], positions[b]);
        assert scores[positions[a]] == Score(similarity, question, r[a]);
        assert scores[positions[b]] == Score(similarity, question, r[b]);
      }
      forall i | 0 <= i < |kb| && Score(similarity, question, kb[i]) >= SimilarityThreshold
        ensures Qualifies(scores, i)
      {
        assert scores[i] == Score(similarity, question, kb[i]);
      }
      forall i | 0 <= i < |kb| && Qualifies(scores, i) && i in positions
        ensures kb[i] in r
      {
        var k :| 0 <= k < |positions| && positions[k] == i;
        assert r[k] == kb[i];
      }
      forall i, k | 0 <= i < |kb| && Qualifies(scores, i) && kb[i] !in r && 0 <= k < |r|
        ensures Score(similarity, question, r[k]) >= Score(similarity, question, kb[i])
      {
        assert i !in positions;
        assert Precedes(scores, positions[k], i);
        assert scores[positions[k]] == Score(similarity, question, r[k]);
        assert scores[i] == Score(similarity, question, kb[i]);
      }
    }
  }
}
