# Email topic classifier — a verified model

This project models the core of a small email-topic service in Dafny:

- the **topic table** with the length-based classifier (`EmailClassifierModel`), and
- the **inference service** (`EmailTopicInferenceService`), which validates and canonicalises a
  ground-truth label and appends emails to a log under increasing ids.

The topic table is a Python dict. It is modelled as `TopicTable`: a key sequence in insertion
order, with no key repeated, plus a map from each key to its description. The classifier keeps
that table, the topic list derived from it, and the state of the topic file. The service keeps
the classifier and the email log file. The model treats both files as in-memory values.

Classification scores every topic with `exp(-|e - len(description)| / 50)`. Here `e` is the
feature `email_embeddings_average_embedding`, and it is 0.0 when the feature is missing. The
model does not compute `math.exp` on floats. The exponential is a parameter `exp: real -> real`,
and the ghost predicate `IsExp` constrains it: `exp(0) = 1`, every value is positive, and the
function strictly increases. From this the model proves that a score lies in (0, 1], that it is
1 exactly at distance 0, and that it strictly decreases with distance. It follows that, in the
model, `max` with Python's tie rule (first maximum wins) picks the first topic of minimal distance.
These are facts about the model's `exp`, not about IEEE floats (see "## Left out").

Modules: `Wrappers` (Option, Result), `Errors` (one constructor per raised exception), `Text`
(`str.lower`, `str.strip`), `Features` (the feature map and the embedding read from it),
`Selection` (first argmax and argmin, Python's tie rule), `SimilarityModel`
(app/models/similarity_model.py) and `EmailTopicInference` (app/services/email_topic_inference.py).

Points of the code's behaviour that the model follows exactly:

- The embedding is read from the feature `email_embeddings_average_embedding`
  (app/models/similarity_model.py:74).
- `get_topic_description` is a plain, case-sensitive dict lookup.
- The duplicate check in `add_topic` compares the lower-cased name with the keys as stored. A
  mixed-case key loaded from the file, such as `"Billing"`, therefore does not block adding
  `"billing"`, and both then exist (`SimilarityModel.MixedCaseKeyScenario`). Names are not kept
  unique up to case.
- A label of whitespace only is truthy. It strips to `""` and is rejected unless some topic
  lower-cases to `""`.

Scenario methods check concrete cases against the classes' contracts: `SimilarityModel.MixedCaseKeyAdded`
with `SimilarityModel.MixedCaseKeyScenario`, and `EmailTopicInference.StoreScenario`.

## Model

| member | source | states |
|---|---|---|
| `SimilarityModel.EmailClassifierModel.constructor` | app/models/similarity_model.py:9-11 | the table is the loaded one and `topics` is its key list in order |
| `SimilarityModel.EmailClassifierModel.AddTopic` | app/models/similarity_model.py:46-59 | a lower-cased name already among the stored keys fails with TopicAlreadyExists and changes nothing; otherwise the entry is stored under the lower-cased name with the given description, `topics` is the old list plus that name at the end, no other entry changes, the file is merged, a file that mirrored the table still mirrors it, and the returned list is the refreshed `topics` |
| `SimilarityModel.TopicTable.Put` | app/models/similarity_model.py:53 | dict assignment keeps the table well formed: a new key goes to the end, an existing key keeps its place, and the map gets the new value |
| `SimilarityModel.UpdateKeys` | app/models/similarity_model.py:25 | `dict.update` keeps the table well formed, every merged key takes the source's value, every other key keeps its own, and existing keys keep their positions |
| `SimilarityModel.NewKeysMembers` | app/models/similarity_model.py:25 | the keys `dict.update` adds are exactly the source's keys that the target lacks, each listed once |
| `SimilarityModel.NewKeysSnoc` | app/models/similarity_model.py:25 | one more source key at the end is added last, exactly when neither the target nor an earlier source key has it |
| `SimilarityModel.UpdateKeysOrder` | app/models/similarity_model.py:25 | after `dict.update` the keys are the target's own keys, then the source's new keys in the source's order, each at its first occurrence |
| `SimilarityModel.SaveTopicData` | app/models/similarity_model.py:19-33 | a missing or malformed file stays as it was (the error is swallowed); otherwise the file becomes the old file merged with the in-memory table |
| `SimilarityModel.SaveTopicDataKeyOrder` | app/models/similarity_model.py:19-33 | the saved file lists its own keys first, then the table's keys it lacked, in the table's order |
| `SimilarityModel.AddedTopic` | app/models/similarity_model.py:53-54 | putting a new name appends it to the keys with its description and leaves every other entry alone; the merged file stays well formed, and a file that mirrored the table still mirrors it |
| `SimilarityModel.SaveKeepsMirror` | app/models/similarity_model.py:53-54 | merging the table, after one new key is added, into a file that equalled the old table gives exactly the new table |
| `SimilarityModel.EmailClassifierModel.GetTopicScores` | app/models/similarity_model.py:61-69 | the result has exactly the keys of `topics`, each with its topic's similarity; a text embedding raises a TypeError, but only when there is some topic |
| `SimilarityModel.EmailClassifierModel.Predict` | app/models/similarity_model.py:35-44 | no topics fails with NoTopicsAvailable; otherwise the result is the first topic of maximal score and also the first topic of minimal distance, it is in `topics`, and no topic scores above it |
| `SimilarityModel.MaxByScore` | app/models/similarity_model.py:44 | `max(scores, key=scores.get)` returns the key at the first index of maximal score |
| `Selection.FirstArgMax` | app/models/similarity_model.py:44 | the index holds a maximal score, and every earlier index holds a strictly smaller one |
| `Selection.FirstArgMin` | app/models/similarity_model.py:40-44 | the index holds a minimal value, and every earlier index holds a strictly larger one |
| `Selection.FirstArgMaxStep` | app/models/similarity_model.py:44 | scanning one more score moves the first maximum only when that score is strictly greater |
| `Selection.FirstArgMaxUnique` | app/models/similarity_model.py:44 | the two properties of the first maximum determine its index |
| `SimilarityModel.MaxSimilarityIsMinDistance` | app/models/similarity_model.py:40-44 | under `IsExp`, the first topic of maximal similarity is the first topic of minimal distance |
| `SimilarityModel.MaxSimilarityDominates` | app/models/similarity_model.py:61-69 | no topic's similarity exceeds the similarity of the first maximal topic |
| `SimilarityModel.ScoredChoice` | app/models/similarity_model.py:40-44 | over the scores of every topic, the first key of maximal score is the first key of minimal distance, and no topic scores above it |
| `SimilarityModel.Distance` | app/models/similarity_model.py:77-82 | the distance is not negative, and it is 0 exactly when the embedding equals the description's length |
| `SimilarityModel.SimilarityBounds` | app/models/similarity_model.py:84-88 | for a distance that is not negative the similarity is in (0, 1], and it is 1 exactly at distance 0 |
| `SimilarityModel.SimilarityDecreasing` | app/models/similarity_model.py:82-86 | a smaller distance gives a strictly greater similarity |
| `SimilarityModel.Similarity` | app/models/similarity_model.py:84-86 | for any `exp` meeting `IsExp`, the similarity is positive, and it is 1 at distance 0 |
| `SimilarityModel.TopicScore` | app/models/similarity_model.py:71-88 | a score exists exactly when the embedding is a number, and it is then the similarity at the distance from the description's length |
| `SimilarityModel.TopicScoreBounds` | app/models/similarity_model.py:71-88 | a topic's score is in (0, 1], it is 1 exactly when the embedding equals the description's length, and without the feature the embedding is 0.0 |
| `Features.EmailEmbedding` | app/models/similarity_model.py:74 | a missing key gives 0.0, a number is itself, a boolean is 0 or 1, and text, which cannot be subtracted, gives none |
| `SimilarityModel.EmailClassifierModel.GetTopicDescription` | app/models/similarity_model.py:90-92 | the lookup succeeds exactly for a topic in `topics` and then returns its description; otherwise it fails with UnknownTopic |
| `SimilarityModel.EmailClassifierModel.GetAllTopicsWithDescriptions` | app/models/similarity_model.py:94-96 | the comprehension has exactly the keys of `topics`, in order, each with its description; it rebuilds the whole table |
| `Text.Lower` | app/models/similarity_model.py:48 | `str.lower()` keeps the length, lower-cases every character, and leaves no upper-case letter |
| `Text.LowerIdempotent` | app/models/similarity_model.py:48 | lower-casing twice is lower-casing once |
| `Text.LowerOfLowerCase` | app/models/similarity_model.py:48 | a string without upper-case letters is unchanged by lower-casing |
| `Text.Strip` | app/services/email_topic_inference.py:50 | `str.strip()` gives the slice of the input between its leading and trailing whitespace; what it keeps neither starts nor ends with whitespace |
| `Text.StripKeepsTrimmed` | app/services/email_topic_inference.py:50 | stripping a string that neither starts nor ends with whitespace changes nothing |
| `Text.StripOfBlank` | app/services/email_topic_inference.py:50 | a string made only of whitespace strips to the empty string |
| `EmailTopicInference.EmailTopicInferenceService.constructor` | app/services/email_topic_inference.py:12-18 | a fresh classifier over the loaded table whose topic file holds that same table, and the log file as it stands |
| `EmailTopicInference.EmailTopicInferenceService.AddTopic` | app/services/email_topic_inference.py:20-22 | the classifier's `add_topic` outcome: success exactly for a new lower-cased name, which is then stored with its description and appended to `topics`, and the file is merged; on failure the table, the topic list and the file are unchanged |
| `EmailTopicInference.EmailTopicInferenceService.ClassifyEmail` | app/services/email_topic_inference.py:25-42 | the prediction fails exactly as `predict` does; on success it is the first topic of minimal distance, the scores have exactly the keys of `topics`, each with that topic's similarity, no score exceeds the predicted topic's, and the features, topic list and email are passed back |
| `EmailTopicInference.EmailTopicInferenceService.StoreEmail` | app/services/email_topic_inference.py:44-69 | an invalid label fails with InvalidGroundTruth and leaves the log unchanged; otherwise a record with the canonical label, or none, is saved as `_save_email` saves it |
| `EmailTopicInference.CanonicalGroundTruth` | app/services/email_topic_inference.py:46-56 | no label or `""` gives none; any other label is accepted exactly when some topic lower-cases to the stripped, lower-cased label, and then a topic (never none) is stored, one that matches; a rejected label fails with InvalidGroundTruth |
| `EmailTopicInference.CaseMap` | app/services/email_topic_inference.py:49 | every topic's lower-case form is a key, and each key maps to a topic with that lower-case form |
| `EmailTopicInference.CaseMapLaterWins` | app/services/email_topic_inference.py:49 | the entry for a topic's lower-case form is that topic or one listed after it |
| `EmailTopicInference.CanonicalIsLastMatch` | app/services/email_topic_inference.py:49-56 | among several topics matching a label, the one listed last is the canonical name |
| `EmailTopicInference.FirstLetterMismatchRejected` | app/services/email_topic_inference.py:50-55 | a label whose first letter, after stripping, matches no topic's first letter up to case is rejected |
| `EmailTopicInference.CollisionScenario` | app/services/email_topic_inference.py:48-56 | with topics "Billing" and "billing", the label " BILLING " is stored as "billing" |
| `EmailTopicInference.UnknownLabelScenario` | app/services/email_topic_inference.py:51-55 | with topics "Billing" and "billing", the label "shipping" is rejected |
| `EmailTopicInference.EmailTopicInferenceService.SaveEmail` | app/services/email_topic_inference.py:78-95 | a malformed log fails and is left as it was; otherwise the log becomes the old records plus the record with id `max(ids, default 0) + 1`, and the returned id is the id stored on the appended record |
| `EmailTopicInference.LoadEmails` | app/services/email_topic_inference.py:81-87 | an absent file, or a document without "emails", is the empty log; a malformed file fails with StorageUnavailable |
| `EmailTopicInference.IdOf` | app/services/email_topic_inference.py:88 | `e.get("id", 0)`: the stored id, and 0 for a record without one |
| `EmailTopicInference.MaxId` | app/services/email_topic_inference.py:88 | the empty log gives 0; otherwise the result is an id in the log and no id exceeds it; a record without id counts as 0 |
| `EmailTopicInference.NextId` | app/services/email_topic_inference.py:88 | the new id is strictly above every id in the log, and it is 1 for the empty log; otherwise it is one more than an existing id |
| `EmailTopicInference.Appended` | app/services/email_topic_inference.py:89-90 | the log grows by one, the earlier records are unchanged, and the last record is the given one carrying the new id |
| `EmailTopicInference.AppendedIdIsFresh` | app/services/email_topic_inference.py:88-90 | the appended record's id is strictly above the id of every earlier record, so no id is reused |
| `EmailTopicInference.AppendKeepsIdsIncreasing` | app/services/email_topic_inference.py:88-90 | a log whose ids increase in storage order still has increasing ids after an append |
| `EmailTopicInference.AppendAll` | app/services/email_topic_inference.py:88-90 | saving records one by one keeps the earlier log in front and appends every record in order, each unchanged except for its id |
| `EmailTopicInference.AppendAllNumbersOn` | app/services/email_topic_inference.py:88-90 | saving records one by one into a log numbered 1..n numbers them n+1, n+2, … |
| `EmailTopicInference.AppendAllFromEmpty` | app/services/email_topic_inference.py:81-90 | N saves starting from an empty or absent log give the ids 1..N, in order |
| `EmailTopicInference.EmailTopicInferenceService.GetPipelineInfo` | app/services/email_topic_inference.py:71-76 | the topic list, and the table of descriptions, which equals the classifier's table and is keyed in topic order |

## Left out

- app/api/routes.py: HTTP routing, request models and the mapping from exceptions to status codes are outside the core.
- JSON parsing and writing. `_load_topic_data` is replaced by the constructor's `loaded` table. If the topics file is missing or malformed at load time, `__init__` raises; that open/parse failure is not modelled.
- The topic file's entries are modelled as description strings. Any other fields an entry carries on disk are not modelled.
- SimilarityModel.SaveTopicData: the file as modelled changes only through `add_topic`. A file that goes missing or gets corrupted between load and save, through some other writer, is not modelled. So the swallowed-error path is reachable only in the pure function.
- The feature generator (`FeatureGeneratorFactory.generate_all_features`) is foreign code. Its output is a parameter of type `FeatureMap`.
- `math.exp` and IEEE floating point: the exponential is the parameter `exp`, constrained by `IsExp`, and scores are reals. `float(score)` is the identity here. IEEE `exp` only weakly decreases with distance: `exp(-d/50)` underflows to 0.0 for a distance of about 37,300 or more, and rounds to 1.0 for a distance of a few ulps. Python's `max` then returns the earliest of the tied topics, which need not have minimal distance, and the score can be 0.0 or 1.0 where the model proves it lies strictly inside (0, 1]. The model does not capture these float ties.
- Text.Lower: only ASCII letters A–Z are lower-cased. Python's full Unicode case mapping is not modelled; it can even change a string's length.
- EmailTopicInference.MaxId: ids are modelled as integers. Python's `max` also orders other numbers: a float id such as 2.5 makes the next id 3.5, and a boolean id counts as 0 or 1. An id that is a string, null or a list makes `max` or the `+ 1` raise TypeError. None of these non-integer ids is modelled.
- SimilarityModel.EmailClassifierModel.Predict: it calls GetTopicScores for its scores. The source repeats the same loop inline; the two loops compute the same dict.
- Re-creating the service on every request, and lost updates when two writers race on either file: these are deployment and concurrency concerns.
- EmailTopicInference.EmailsFile: a document is modelled by its "emails" list alone. `_save_email` writes back only `{"emails": emails}`, so any other top-level keys of the loaded file are dropped; the model has no place for them. A file that is valid JSON but not an object, or whose "emails" is null or not a list, makes `_save_email` raise while reading it; those documents are not modelled either.
- `_save_email` sets `id` on the caller's dict, which Python shares by reference. That mutation is not modelled, since `store_email` drops the dict after the call.
