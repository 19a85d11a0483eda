/**
 * The topic table and the length-based classifier (EmailClassifierModel).
 *
 * The table is a Python dict, so it is modelled as an insertion-ordered map:
 * a key sequence without repetitions plus a map from each key to its description.
 * math.exp is not modelled as a float function: the model takes it as a parameter
 * constrained by IsExp, which is all the classifier's properties depend on.
 */
module SimilarityModel {
  import opened Wrappers
  import opened Errors
  import opened Text
  import opened Features
  import opened Selection

  /** The fixed smoothing scale of the similarity. */
  const Scale: real := 50.0

  /** What the model needs of math.exp: exp(0) = 1, positive, strictly increasing. */
  ghost predicate IsExp(exp: real -> real) {
    && exp(0.0) == 1.0
    && (forall x :: exp(x) > 0.0)
    && (forall x, y :: x < y ==> exp(x) < exp(y))
  }

  /** |e - len(description)|, the gap between the email's embedding and the topic's stand-in embedding. */
  function Distance(e: real, description: string): (d: real)
    ensures d >= 0.0
    ensures d == 0.0 <==> e == |description| as real
    ensures d == e - |description| as real || d == |description| as real - e
  {
    var t := |description| as real;
    if e >= t then e - t else t - e
  }

  /** exp(-distance / scale): positive, and 1 at distance 0. */
  function Similarity(exp: real -> real, d: real): (s: real)
    ensures IsExp(exp) ==> s > 0.0
    ensures IsExp(exp) && d == 0.0 ==> s == 1.0
  {
    exp(-d / Scale)
  }

  /** On a distance that is not negative the similarity is in (0, 1], and 1 exactly at distance 0. */
  lemma SimilarityBounds(exp: real -> real, d: real)
    requires IsExp(exp)
    requires d >= 0.0
    ensures 0.0 < Similarity(exp, d) <= 1.0
    ensures Similarity(exp, d) == 1.0 <==> d == 0.0
  {
    if d > 0.0 {
      assert -d / Scale < 0.0;
    }
  }

  /** The similarity strictly decreases as the distance grows. */
  lemma SimilarityDecreasing(exp: real -> real, d1: real, d2: real)
    requires IsExp(exp)
    requires d1 < d2
    ensures Similarity(exp, d1) > Similarity(exp, d2)
  {
    assert -d2 / Scale < -d1 / Scale;
  }

  /** _calculate_topic_score against one description; None where the subtraction raises a TypeError. */
  function TopicScore(exp: real -> real, features: FeatureMap, description: string): (r: Option<real>)
    ensures r.None? <==> EmailEmbedding(features).None?
    ensures r.Some? ==> r.value == Similarity(exp, Distance(EmailEmbedding(features).value, description))
  {
    match EmailEmbedding(features)
    case None => None
    case Some(e) => Some(Similarity(exp, Distance(e, description)))
  }

  /**
   * A score is in (0, 1]; it is 1 exactly when the embedding equals the description's length;
   * without the feature the embedding is 0.0.
   */
  lemma TopicScoreBounds(exp: real -> real, features: FeatureMap, description: string)
    requires IsExp(exp)
    requires EmailEmbedding(features).Some?
    ensures 0.0 < TopicScore(exp, features, description).value <= 1.0
    ensures TopicScore(exp, features, description).value == 1.0 <==>
              EmailEmbedding(features).value == |description| as real
    ensures EmbeddingKey !in features ==>
              TopicScore(exp, features, description) == Some(Similarity(exp, |description| as real))
  {
    SimilarityBounds(exp, Distance(EmailEmbedding(features).value, description));
  }

  /** The similarity of every key, in key order. */
  function SimilarityList(exp: real -> real, e: real, descriptions: map<string, string>, keys: seq<string>): (r: seq<real>)
    requires forall k :: k in keys ==> k in descriptions
    ensures |r| == |keys|
    ensures forall j :: 0 <= j < |keys| ==> r[j] == Similarity(exp, Distance(e, descriptions[keys[j]]))
  {
    seq(|keys|, j requires 0 <= j < |keys| => Similarity(exp, Distance(e, descriptions[keys[j]])))
  }

  /** The distance of every key, in key order. */
  function DistanceList(e: real, descriptions: map<string, string>, keys: seq<string>): (r: seq<real>)
    requires forall k :: k in keys ==> k in descriptions
    ensures |r| == |keys|
    ensures forall j :: 0 <= j < |keys| ==> r[j] == Distance(e, descriptions[keys[j]])
  {
    seq(|keys|, j requires 0 <= j < |keys| => Distance(e, descriptions[keys[j]]))
  }

  /** The first topic of maximal similarity is the first topic of minimal distance. */
  lemma MaxSimilarityIsMinDistance(exp: real -> real, e: real, descriptions: map<string, string>, keys: seq<string>)
    requires IsExp(exp)
    requires |keys| > 0
    requires forall k :: k in keys ==> k in descriptions
    ensures FirstArgMax(SimilarityList(exp, e, descriptions, keys)) == FirstArgMin(DistanceList(e, descriptions, keys))
  {
    var ss := SimilarityList(exp, e, descriptions, keys);
    var ds := DistanceList(e, descriptions, keys);
    var b := FirstArgMin(ds);
    forall j | 0 <= j < |ss|
      ensures ss[j] <= ss[b]
    {
      if ds[b] < ds[j] {
        SimilarityDecreasing(exp, ds[b], ds[j]);
      }
    }
    forall j | 0 <= j < b
      ensures ss[j] < ss[b]
    {
      SimilarityDecreasing(exp, ds[b], ds[j]);
    }
    FirstArgMaxUnique(ss, b);
  }

  /** No key is more similar than the first key of maximal similarity. */
  lemma MaxSimilarityDominates(exp: real -> real, e: real, descriptions: map<string, string>, keys: seq<string>)
    requires |keys| > 0
    requires forall k :: k in keys ==> k in descriptions
    ensures var best := keys[FirstArgMax(SimilarityList(exp, e, descriptions, keys))];
      forall t :: t in keys ==> Similarity(exp, Distance(e, descriptions[t])) <= Similarity(exp, Distance(e, descriptions[best]))
  {
    var list := SimilarityList(exp, e, descriptions, keys);
    forall t | t in keys
      ensures Similarity(exp, Distance(e, descriptions[t])) <= list[FirstArgMax(list)]
    {
      var j :| 0 <= j < |keys| && keys[j] == t;
      assert list[j] <= list[FirstArgMax(list)];
    }
  }

  /**
   * Over the scores of every key, the first key of maximal score is the first key of
   * maximal similarity and of minimal distance, and no key scores above it.
   */
  lemma ScoredChoice(exp: real -> real, e: real, descriptions: map<string, string>, keys: seq<string>, scores: map<string, real>)
    requires IsExp(exp)
    requires |keys| > 0
    requires forall k :: k in keys ==> k in descriptions
    requires forall k :: k in keys ==> k in scores && scores[k] == Similarity(exp, Distance(e, descriptions[k]))
    ensures ScoresInOrder(keys, scores) == SimilarityList(exp, e, descriptions, keys)
    ensures FirstArgMax(ScoresInOrder(keys, scores)) == FirstArgMin(DistanceList(e, descriptions, keys))
    ensures var best := keys[FirstArgMax(ScoresInOrder(keys, scores))];
      forall t :: t in keys ==> Similarity(exp, Distance(e, descriptions[t])) <= Similarity(exp, Distance(e, descriptions[best]))
  {
    assert ScoresInOrder(keys, scores) == SimilarityList(exp, e, descriptions, keys);
    MaxSimilarityIsMinDistance(exp, e, descriptions, keys);
    MaxSimilarityDominates(exp, e, descriptions, keys);
  }

  /** The score of every key, in key order. */
  function ScoresInOrder(keys: seq<string>, scores: map<string, real>): (r: seq<real>)
    requires forall k :: k in keys ==> k in scores
    ensures |r| == |keys|
    ensures forall j :: 0 <= j < |keys| ==> r[j] == scores[keys[j]]
  {
    seq(|keys|, j requires 0 <= j < |keys| => scores[keys[j]])
  }

  /** max(scores, key=scores.get) over a dict whose keys are, in order, keys. */
  method MaxByScore(keys: seq<string>, scores: map<string, real>) returns (best: string)
    requires |keys| > 0
    requires forall k :: k in keys ==> k in scores
    ensures best == keys[FirstArgMax(ScoresInOrder(keys, scores))]
  {
    ghost var list := ScoresInOrder(keys, scores);
    best := keys[0];
    ghost var bestIdx := 0;
    for i := 1 to |keys|
      invariant bestIdx == FirstArgMax(list[..i]) && best == keys[bestIdx]
    {
      FirstArgMaxStep(list, i);
      if scores[keys[i]] > scores[best] {
        best := keys[i];
        bestIdx := i;
      }
    }
    assert list[..|keys|] == list;
  }

  /** A Python dict from topic name to description, in insertion order. */
  datatype TopicTable = TopicTable(keys: seq<string>, descriptions: map<string, string>) {

    /** The keys are listed once each, and exactly the keys of the map are listed. */
    ghost predicate Valid() {
      && (forall i, j :: 0 <= i < j < |keys| ==> keys[i] != keys[j])
      && (forall k :: k in descriptions <==> k in keys)
    }

    /** d[k] = v: a new key goes to the end, an existing key keeps its place. */
    function Put(k: string, v: string): (r: TopicTable)
      requires Valid()
      ensures r.Valid()
      ensures r.descriptions == descriptions[k := v]
      ensures k in descriptions ==> r.keys == keys
      ensures k !in descriptions ==> r.keys == keys + [k]
    {
      if k in descriptions then TopicTable(keys, descriptions[k := v])
      else TopicTable(keys + [k], descriptions[k := v])
    }
  }

  /** The keys of ks that are not in have, each at its first occurrence, in the order of ks. */
  function NewKeys(have: seq<string>, ks: seq<string>): seq<string>
    decreases |ks|
  {
    if ks == [] then []
    else if ks[0] in have then NewKeys(have, ks[1..])
    else [ks[0]] + NewKeys(have + [ks[0]], ks[1..])
  }

  /** No element is listed twice. */
  ghost predicate Distinct(xs: seq<string>) {
    forall i, j :: 0 <= i < j < |xs| ==> xs[i] != xs[j]
  }

  /** The new keys are exactly the keys of ks not in have, each listed once. */
  lemma {:induction false} NewKeysMembers(have: seq<string>, ks: seq<string>)
    ensures forall k :: k in NewKeys(have, ks) <==> k in ks && k !in have
    ensures Distinct(NewKeys(have, ks))
    decreases |ks|
  {
    if ks != [] {
      assert forall k :: k in ks <==> k == ks[0] || k in ks[1..];
      if ks[0] in have {
        NewKeysMembers(have, ks[1..]);
        assert NewKeys(have, ks) == NewKeys(have, ks[1..]);
      } else {
        var rest := NewKeys(have + [ks[0]], ks[1..]);
        NewKeysMembers(have + [ks[0]], ks[1..]);
        var r := [ks[0]] + rest;
        assert NewKeys(have, ks) == r;
        assert forall k :: k in r <==> k == ks[0] || k in rest;
        assert Distinct(rest);
        forall i, j | 0 <= i < j < |r|
          ensures r[i] != r[j]
        {
          assert r[j] == rest[j - 1] && rest[j - 1] in rest;
          if i == 0 {
            assert rest[j - 1] !in have + [ks[0]];
          } else {
            assert r[i] == rest[i - 1];
            assert 0 <= i - 1 < j - 1 < |rest|;
          }
        }
      }
    }
  }

  /** One more key at the end of ks adds it to the new keys exactly when it is neither had nor seen. */
  lemma {:induction false} NewKeysSnoc(have: seq<string>, ks: seq<string>, k: string)
    ensures NewKeys(have, ks + [k]) == NewKeys(have, ks) + (if k in have || k in ks then [] else [k])
    decreases |ks|
  {
    if ks == [] {
      assert (ks + [k])[1..] == [];
    } else {
      assert (ks + [k])[0] == ks[0];
      assert (ks + [k])[1..] == ks[1..] + [k];
      assert k in ks <==> k == ks[0] || k in ks[1..];
      if ks[0] in have {
        NewKeysSnoc(have, ks[1..], k);
      } else {
        NewKeysSnoc(have + [ks[0]], ks[1..], k);
      }
    }
  }

  /** Putting the next key of a merge keeps the entries and values the merge promises. */
  lemma MergeStepEntries(a: TopicTable, init: seq<string>, last: string, src: map<string, string>, prev: TopicTable)
    requires prev.Valid()
    requires last in src && (forall k :: k in init ==> k in src)
    requires forall k :: k in prev.descriptions <==> k in a.descriptions || k in init
    requires forall k :: k in prev.descriptions ==>
               prev.descriptions[k] == if k in init then src[k] else a.descriptions[k]
    ensures var r := prev.Put(last, src[last]);
      && (forall k :: k in r.descriptions <==> k in a.descriptions || k in init + [last])
      && (forall k :: k in r.descriptions ==>
            r.descriptions[k] == if k in init + [last] then src[k] else a.descriptions[k])
  {
    assert forall k :: k in init + [last] <==> k in init || k == last;
  }

  /** Putting the next key of a merge keeps the old keys at the front. */
  lemma MergeStepPrefix(keys: seq<string>, prev: TopicTable, last: string, v: string)
    requires prev.Valid()
    requires |keys| <= |prev.keys| && prev.keys[..|keys|] == keys
    ensures var r := prev.Put(last, v); |keys| <= |r.keys| && r.keys[..|keys|] == keys
  {
    var r := prev.Put(last, v);
    assert r.keys[..|prev.keys|] == prev.keys;
    assert r.keys[..|keys|] == prev.keys[..|keys|];
  }

  /** Putting the next key of a merge appends it to the keys exactly when it is new to the merge. */
  lemma MergeStepOrder(keys: seq<string>, have: seq<string>, init: seq<string>, last: string, v: string, prev: TopicTable)
    requires prev.Valid()
    requires forall k :: k in prev.descriptions <==> k in have || k in init
    requires prev.keys == keys + NewKeys(have, init)
    ensures prev.Put(last, v).keys == keys + NewKeys(have, init + [last])
  {
    NewKeysSnoc(have, init, last);
    if last !in prev.descriptions {
      assert prev.keys + [last] == keys + (NewKeys(have, init) + [last]);
    }
  }

  /** The entries of src under ks, put into a one after the other (the loop inside dict.update). */
  function UpdateKeys(a: TopicTable, ks: seq<string>, src: map<string, string>): (r: TopicTable)
    requires a.Valid()
    requires forall k :: k in ks ==> k in src
    ensures r.Valid()
    ensures forall k :: k in r.descriptions <==> k in a.descriptions || k in ks
    ensures forall k :: k in r.descriptions ==>
              r.descriptions[k] == if k in ks then src[k] else a.descriptions[k]
    ensures |a.keys| <= |r.keys| && r.keys[..|a.keys|] == a.keys
    ensures (forall k :: k in ks ==> k in a.descriptions) ==> r.keys == a.keys
    decreases |ks|
  {
    if ks == [] then a
    else
      var init := ks[..|ks| - 1];
      var last := ks[|ks| - 1];
      assert ks == init + [last];
      var prev := UpdateKeys(a, init, src);
      MergeStepEntries(a, init, last, src, prev);
      MergeStepPrefix(a.keys, prev, last, src[last]);
      prev.Put(last, src[last])
  }

  /** dict.update puts the new keys after the old ones, in the order of ks, each at its first occurrence. */
  lemma {:induction false} UpdateKeysOrder(a: TopicTable, ks: seq<string>, src: map<string, string>)
    requires a.Valid()
    requires forall k :: k in ks ==> k in src
    ensures UpdateKeys(a, ks, src).keys == a.keys + NewKeys(a.keys, ks)
    decreases |ks|
  {
    if ks != [] {
      var init := ks[..|ks| - 1];
      var last := ks[|ks| - 1];
      assert ks == init + [last];
      UpdateKeysOrder(a, init, src);
      MergeStepOrder(a.keys, a.keys, init, last, src[last], UpdateKeys(a, init, src));
    }
  }

  /**
   * _save_topic_data: the file's table after merging data into it (file_data.update(data)).
   * None stands for a file that is missing or not valid JSON; the error is printed and
   * swallowed, so the file stays as it was.
   */
  function SaveTopicData(file: Option<TopicTable>, data: TopicTable): (r: Option<TopicTable>)
    requires data.Valid()
    requires file.Some? ==> file.value.Valid()
    ensures r.None? <==> file.None?
    ensures r.Some? ==> r.value.Valid()
    ensures r.Some? ==> forall k :: k in r.value.descriptions <==> k in file.value.descriptions || k in data.descriptions
    ensures r.Some? ==> forall k :: k in r.value.descriptions ==>
              r.value.descriptions[k] == if k in data.descriptions then data.descriptions[k] else file.value.descriptions[k]
    ensures r.Some? ==> |file.value.keys| <= |r.value.keys| && r.value.keys[..|file.value.keys|] == file.value.keys
  {
    match file
    case None => None
    case Some(f) =>
      Some(UpdateKeys(f, data.keys, data.descriptions))
  }

  /** The saved file lists its own keys first, then the table's new keys in the table's order. */
  lemma SaveTopicDataKeyOrder(file: TopicTable, data: TopicTable)
    requires file.Valid() && data.Valid()
    ensures SaveTopicData(Some(file), data).value.keys == file.keys + NewKeys(file.keys, data.keys)
  {
    UpdateKeysOrder(file, data.keys, data.descriptions);
  }

  /** A file that mirrors the table before a new key is put in mirrors it afterwards. */
  lemma SaveKeepsMirror(f: TopicTable, k: string, v: string)
    requires f.Valid()
    requires k !in f.descriptions
    ensures SaveTopicData(Some(f), f.Put(k, v)) == Some(f.Put(k, v))
  {
    var d := f.Put(k, v);
    assert d.keys[..|d.keys| - 1] == f.keys;
    MergeAgreeingIsIdentity(f, d.descriptions);
  }

  /** Merging entries that agree with the table leaves the table as it is. */
  lemma MergeAgreeingIsIdentity(f: TopicTable, src: map<string, string>)
    requires f.Valid()
    requires forall k :: k in f.descriptions ==> k in src && src[k] == f.descriptions[k]
    ensures UpdateKeys(f, f.keys, src) == f
  {
    var r := UpdateKeys(f, f.keys, src);
    forall k | k in r.descriptions
      ensures r.descriptions[k] == f.descriptions[k]
    {
      assert k in f.keys;
    }
    assert r.descriptions == f.descriptions;
  }

  /** A new name put into the table, and the table merged into the file. */
  lemma AddedTopic(before: TopicTable, file: Option<TopicTable>, name: string, description: string)
    requires before.Valid() && (file.Some? ==> file.value.Valid())
    requires name !in before.descriptions
    ensures var after := before.Put(name, description);
      && after.keys == before.keys + [name]
      && name in after.descriptions && after.descriptions[name] == description
      && (forall k :: k in before.descriptions ==> k in after.descriptions && after.descriptions[k] == before.descriptions[k])
      && (SaveTopicData(file, after).Some? ==> SaveTopicData(file, after).value.Valid())
      && (file == Some(before) ==> SaveTopicData(file, after) == Some(after))
  {
    if file == Some(before) {
      SaveKeepsMirror(before, name, description);
    }
  }

  /** The classifier: the in-memory topic table, the topic list derived from it, and the topic file. */
  class EmailClassifierModel {
    var topicData: TopicTable
    var topics: seq<string>
    var topicFile: Option<TopicTable>

    ghost predicate Valid()
      reads this
    {
      && topicData.Valid()
      && topics == topicData.keys
      && (topicFile.Some? ==> topicFile.value.Valid())
    }

    /** __init__ with the table read from the topic file. */
    constructor (loaded: TopicTable)
      requires loaded.Valid()
      ensures Valid()
      ensures topicData == loaded && topics == loaded.keys && topicFile == Some(loaded)
    {
      topicData := loaded;
      topics := loaded.keys;
      topicFile := Some(loaded);
    }

    /**
     * add_topic: the name is lower-cased and must not already be a key as stored;
     * the entry is put at the end, the file is merged and the topic list refreshed.
     */
    method AddTopic(topicName: string, description: string) returns (r: Result<seq<string>, Error>)
      requires Valid()
      modifies this
      ensures Valid()
      ensures Lower(topicName) in old(topicData.descriptions) ==>
                && r == Failure(TopicAlreadyExists(Lower(topicName)))
                && topicData == old(topicData) && topics == old(topics) && topicFile == old(topicFile)
      ensures Lower(topicName) !in old(topicData.descriptions) ==>
                && topicData == old(topicData).Put(Lower(topicName), description)
                && topics == old(topics) + [Lower(topicName)]
                && topicFile == SaveTopicData(old(topicFile), topicData)
                && r == Success(topics)
                && GetTopicDescription(Lower(topicName)) == Success(description)
                && (forall k :: k in old(topicData.descriptions) ==>
                      k in topicData.descriptions && topicData.descriptions[k] == old(topicData.descriptions)[k])
                && (old(topicFile) == Some(old(topicData)) ==> topicFile == Some(topicData))
    {
      var name := Lower(topicName);
      if name in topicData.descriptions {
        return Failure(TopicAlreadyExists(name));
      }
      AddedTopic(topicData, topicFile, name, description);
      topicData := topicData.Put(name, description);
      topicFile := SaveTopicData(topicFile, topicData);
      topics := topicData.keys;
      r := Success(topics);
    }

    /**
     * get_topic_scores: the score of every topic, keyed by topic.
     * With no topics the loop never runs, so even a text embedding gives an empty result.
     */
    method GetTopicScores(exp: real -> real, features: FeatureMap) returns (r: Result<map<string, real>, Error>)
      requires Valid()
      ensures r.Failure? <==> topics != [] && EmailEmbedding(features).None?
      ensures r.Failure? ==> r.error == NonNumericEmbedding
      ensures r.Success? ==> forall t :: t in r.value <==> t in topics
      ensures r.Success? ==> forall t :: t in r.value ==>
                && t in topicData.descriptions
                && EmailEmbedding(features).Some?
                && r.value[t] == Similarity(exp, Distance(EmailEmbedding(features).value, topicData.descriptions[t]))
    {
      var scores: map<string, real> := map[];
      for i := 0 to |topics|
        invariant i > 0 ==> EmailEmbedding(features).Some?
        invariant forall t :: t in scores <==> t in topics[..i]
        invariant forall t :: t in scores ==>
                    && t in topicData.descriptions
                    && EmailEmbedding(features).Some?
                    && scores[t] == Similarity(exp, Distance(EmailEmbedding(features).value, topicData.descriptions[t]))
      {
        var score := TopicScore(exp, features, topicData.descriptions[topics[i]]);
        if score.None? {
          return Failure(NonNumericEmbedding);
        }
        scores := scores[topics[i] := score.value];
      }
      assert topics[..|topics|] == topics;
      r := Success(scores);
    }

    /**
     * predict: the topic of maximal score, the first one in topic order on a tie
     * (Python's max); equivalently the first topic of minimal distance.
     */
    method Predict(exp: real -> real, features: FeatureMap) returns (r: Result<string, Error>)
      requires Valid()
      requires IsExp(exp)
      ensures topics == [] ==> r == Failure(NoTopicsAvailable)
      ensures topics != [] && EmailEmbedding(features).None? ==> r == Failure(NonNumericEmbedding)
      ensures topics != [] && EmailEmbedding(features).Some? ==>
                && r == Success(topics[FirstArgMax(SimilarityList(exp, EmailEmbedding(features).value, topicData.descriptions, topics))])
                && r == Success(topics[FirstArgMin(DistanceList(EmailEmbedding(features).value, topicData.descriptions, topics))])
      ensures r.Success? ==> r.value in topics
      ensures r.Success? ==> forall t :: t in topics ==>
                && EmailEmbedding(features).Some?
                && Similarity(exp, Distance(EmailEmbedding(features).value, topicData.descriptions[t]))
                   <= Similarity(exp, Distance(EmailEmbedding(features).value, topicData.descriptions[r.value]))
    {
      var scored := GetTopicScores(exp, features);
      if scored.Failure? {
        return Failure(scored.error);
      }
      var scores := scored.value;
      assert topics != [] ==> topics[0] in scores;
      if scores == map[] {
        return Failure(NoTopicsAvailable);
      }
      assert topics != [] by {
        var t :| t in scores;
      }
      var best := MaxByScore(topics, scores);
      ScoredChoice(exp, EmailEmbedding(features).value, topicData.descriptions, topics, scores);
      r := Success(best);
    }

    /** get_topic_description: a plain, case-sensitive lookup; KeyError for an unknown topic. */
    function GetTopicDescription(topic: string): (r: Result<string, Error>)
      reads this
      requires Valid()
      ensures r.Success? <==> topic in topics
      ensures r.Success? ==> r.value == topicData.descriptions[topic]
      ensures r.Failure? ==> r.error == UnknownTopic(topic)
    {
      if topic in topicData.descriptions then Success(topicData.descriptions[topic])
      else Failure(UnknownTopic(topic))
    }

    /** get_all_topics_with_descriptions: the comprehension over topics rebuilds the whole table. */
    function GetAllTopicsWithDescriptions(): (r: TopicTable)
      reads this
      requires Valid()
      ensures r.keys == topics
      ensures forall t :: t in r.descriptions <==> t in topics
      ensures forall t :: t in r.descriptions ==> GetTopicDescription(t) == Success(r.descriptions[t])
      ensures r == topicData
    {
      TopicTable(topics, map t | t in topics :: topicData.descriptions[t])
    }
  }

  /** Loading the mixed-case key "Billing" and then adding "billing": both keys then coexist. */
  method MixedCaseKeyAdded() returns (model: EmailClassifierModel, added: Result<seq<string>, Error>)
    ensures fresh(model) && model.Valid()
    ensures model.topics == ["Billing", "billing"] && added == Success(model.topics)
  {
    model := new EmailClassifierModel(TopicTable(["Billing"], map["Billing" := "invoice and payment issues"]));
    LowerOfLowerCase("billing");
    assert "billing"[0] != "Billing"[0];
    assert Lower("billing") !in model.topicData.descriptions;
    added := model.AddTopic("billing", "refunds");
    assert model.topics == ["Billing"] + [Lower("billing")];
  }

  /** A table loaded with the mixed-case key "Billing" does not block adding "billing", but a second "billing" is refused. */
  method MixedCaseKeyScenario() {
    var model, added := MixedCaseKeyAdded();
    assert added == Success(["Billing", "billing"]);
    LowerOfLowerCase("billing");
    assert Lower("billing") == model.topics[1];
    var again := model.AddTopic("billing", "duplicates");
    assert again == Failure(TopicAlreadyExists("billing"));
    assert model.topics == ["Billing", "billing"];
  }
}
