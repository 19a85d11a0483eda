/**
 * The inference service (EmailTopicInferenceService): ground-truth validation and
 * canonicalisation, the email log with its id assignment, and the classification result.
 * The email log file is an in-memory value; the feature generator's output is a parameter.
 */
module EmailTopicInference {
  import opened Wrappers
  import opened Errors
  import opened Text
  import opened Features
  import opened Selection
  import opened SimilarityModel

  datatype Email = Email(subject: string, body: string)

  /** One entry of the email log; a record that has no "id" carries None. */
  datatype EmailRecord = EmailRecord(
    id: Option<int>,
    subject: string,
    body: string,
    groundTruth: Option<string>,
    features: FeatureMap)

  /** The email log file: absent, not valid JSON, or a document with or without its "emails" list. */
  datatype EmailsFile = Absent | Malformed | Document(emails: Option<seq<EmailRecord>>)

  /** What _save_email reads: an absent file or a missing "emails" key is the empty log. */
  function LoadEmails(file: EmailsFile): (r: Result<seq<EmailRecord>, Error>)
    ensures r.Failure? <==> file.Malformed?
    ensures r.Failure? ==> r.error == StorageUnavailable
    ensures file.Absent? || file == Document(None) ==> r == Success([])
    ensures file.Document? && file.emails.Some? ==> r == Success(file.emails.value)
  {
    match file
    case Absent => Success([])
    case Malformed => Failure(StorageUnavailable)
    case Document(None) => Success([])
    case Document(Some(es)) => Success(es)
  }

  /** e.get("id", 0): the stored id, and 0 for a record without one. */
  function IdOf(e: EmailRecord): (i: int)
    ensures e.id.None? ==> i == 0
    ensures e.id.Some? ==> i == e.id.value
  {
    match e.id
    case None => 0
    case Some(i) => i
  }

  /** max(ids, default=0): the largest id, or 0 for the empty log (ids on file may be negative). */
  function MaxId(emails: seq<EmailRecord>): (m: int)
    ensures emails == [] ==> m == 0
    ensures forall i :: 0 <= i < |emails| ==> IdOf(emails[i]) <= m
    ensures emails != [] ==> exists i :: 0 <= i < |emails| && IdOf(emails[i]) == m
    decreases |emails|
  {
    if emails == [] then 0
    else if |emails| == 1 then IdOf(emails[0])
    else
      var m := MaxId(emails[..|emails| - 1]);
      var x := IdOf(emails[|emails| - 1]);
      if x > m then x else m
  }

  /** The id _save_email assigns: greater than every id in the log, and 1 for the empty log. */
  function NextId(emails: seq<EmailRecord>): (n: int)
    ensures forall i :: 0 <= i < |emails| ==> IdOf(emails[i]) < n
    ensures emails == [] ==> n == 1
    ensures emails != [] ==> exists i :: 0 <= i < |emails| && IdOf(emails[i]) == n - 1
  {
    MaxId(emails) + 1
  }

  /** The log after _save_email: the old records, then the new record carrying the assigned id. */
  function Appended(emails: seq<EmailRecord>, record: EmailRecord): (r: seq<EmailRecord>)
    ensures |r| == |emails| + 1
    ensures r[..|emails|] == emails
    ensures r[|emails|] == record.(id := Some(NextId(emails)))
  {
    emails + [record.(id := Some(NextId(emails)))]
  }

  /** The id stored on the appended record is fresh: strictly above every earlier id. */
  lemma AppendedIdIsFresh(emails: seq<EmailRecord>, record: EmailRecord)
    ensures var r := Appended(emails, record);
      forall i :: 0 <= i < |emails| ==> IdOf(r[i]) < IdOf(r[|emails|])
  {
  }

  ghost predicate IdsIncreasing(emails: seq<EmailRecord>) {
    forall i, j :: 0 <= i < j < |emails| ==> IdOf(emails[i]) < IdOf(emails[j])
  }

  /** Appending keeps a log whose ids increase in storage order increasing. */
  lemma AppendKeepsIdsIncreasing(emails: seq<EmailRecord>, record: EmailRecord)
    requires IdsIncreasing(emails)
    ensures IdsIncreasing(Appended(emails, record))
  {
    var r := Appended(emails, record);
    forall i, j | 0 <= i < j < |r|
      ensures IdOf(r[i]) < IdOf(r[j])
    {
      if j < |emails| {
        assert r[i] == emails[i] && r[j] == emails[j];
      } else {
        assert r[i] == emails[i];
      }
    }
  }

  /** The log after saving each of records in turn. */
  function AppendAll(emails: seq<EmailRecord>, records: seq<EmailRecord>): (r: seq<EmailRecord>)
    ensures |r| == |emails| + |records|
    ensures r[..|emails|] == emails
    ensures forall j :: 0 <= j < |records| ==> r[|emails| + j] == records[j].(id := r[|emails| + j].id)
    decreases |records|
  {
    if records == [] then emails
    else AppendAll(Appended(emails, records[0]), records[1..])
  }

  ghost predicate IdsOneTo(emails: seq<EmailRecord>) {
    forall i :: 0 <= i < |emails| ==> IdOf(emails[i]) == i + 1
  }

  /** A log numbered 1..n gets n + 1 next. */
  lemma NextIdAfterOneTo(emails: seq<EmailRecord>)
    requires IdsOneTo(emails)
    ensures NextId(emails) == |emails| + 1
  {
    if emails != [] {
      assert IdOf(emails[|emails| - 1]) == |emails|;
    }
  }

  /** Saving records one by one into a log numbered 1..n numbers them n + 1, n + 2, ... */
  lemma {:induction false} AppendAllNumbersOn(emails: seq<EmailRecord>, records: seq<EmailRecord>)
    requires IdsOneTo(emails)
    ensures |AppendAll(emails, records)| == |emails| + |records|
    ensures IdsOneTo(AppendAll(emails, records))
    decreases |records|
  {
    if records != [] {
      NextIdAfterOneTo(emails);
      var next := Appended(emails, records[0]);
      assert IdsOneTo(next) by {
        forall i | 0 <= i < |next|
          ensures IdOf(next[i]) == i + 1
        {
          if i < |emails| {
            assert next[i] == emails[i];
          }
        }
      }
      AppendAllNumbersOn(next, records[1..]);
    }
  }

  /** N saves starting from an empty or absent log give the ids 1..N in storage order. */
  lemma AppendAllFromEmpty(records: seq<EmailRecord>)
    ensures |AppendAll([], records)| == |records|
    ensures forall i :: 0 <= i < |records| ==> AppendAll([], records)[i].id == Some(i + 1)
  {
    AppendAllNumbersOn([], records);
    var r := AppendAll([], records);
    forall i | 0 <= i < |records|
      ensures r[i].id == Some(i + 1)
    {
      AppendAllGivesIds([], records, i);
    }
  }

  /** Every record saved through AppendAll carries an id. */
  lemma {:induction false} AppendAllGivesIds(emails: seq<EmailRecord>, records: seq<EmailRecord>, i: nat)
    requires forall k :: 0 <= k < |emails| ==> emails[k].id.Some?
    requires IdsOneTo(emails)
    requires i < |emails| + |records|
    ensures |AppendAll(emails, records)| == |emails| + |records|
    ensures AppendAll(emails, records)[i].id == Some(i + 1)
    decreases |records|
  {
    AppendAllNumbersOn(emails, records);
    if records == [] {
      assert AppendAll(emails, records) == emails;
    } else {
      var next := Appended(emails, records[0]);
      forall k | 0 <= k < |next|
        ensures next[k].id.Some?
      {
        if k < |emails| {
          assert next[k] == emails[k];
        }
      }
      AppendAllNumbersOn(emails, [records[0]]);
      assert AppendAll(next, []) == next;
      assert AppendAll(emails, [records[0]]) == next;
      AppendAllGivesIds(next, records[1..], i);
    }
  }

  /** {t.lower(): t for t in topics}: on a collision under lower-casing the later topic overwrites. */
  function CaseMap(topics: seq<string>): (m: map<string, string>)
    ensures forall t :: t in topics ==> Lower(t) in m
    ensures forall k :: k in m ==> m[k] in topics && Lower(m[k]) == k
    decreases |topics|
  {
    if topics == [] then map[]
    else
      var last := topics[|topics| - 1];
      CaseMap(topics[..|topics| - 1])[Lower(last) := last]
  }

  /** The map entry for a topic's lower-case form is that topic or one listed after it (at index p). */
  lemma {:induction false} CaseMapLaterWins(topics: seq<string>, i: nat) returns (p: nat)
    requires i < |topics|
    ensures i <= p < |topics|
    ensures CaseMap(topics)[Lower(topics[i])] == topics[p]
    decreases |topics|
  {
    var init := topics[..|topics| - 1];
    var last := topics[|topics| - 1];
    if i < |topics| - 1 && Lower(last) != Lower(topics[i]) {
      assert init[i] == topics[i];
      p := CaseMapLaterWins(init, i);
      assert init[p] == topics[p];
    } else {
      p := |topics| - 1;
    }
  }

  /**
   * The ground truth store_email puts on the record: None when none (or "") is given;
   * otherwise the topic whose lower-case form matches the stripped, lower-cased label,
   * or InvalidGroundTruth when there is none.
   */
  function CanonicalGroundTruth(topics: seq<string>, given: Option<string>): (r: Result<Option<string>, Error>)
    ensures given == None || given == Some("") ==> r == Success(None)
    ensures given.Some? && given.value != "" ==>
              (r.Success? <==> exists t :: t in topics && Lower(t) == Lower(Strip(given.value)))
    ensures r.Failure? ==> given.Some? && r.error == InvalidGroundTruth(given.value)
    ensures r.Success? && given.Some? && given.value != "" ==> r.value.Some?
    ensures r.Success? && r.value.Some? ==>
              given.Some? && r.value.value in topics && Lower(r.value.value) == Lower(Strip(given.value))
  {
    match given
    case None => Success(None)
    case Some(s) =>
      if s == "" then Success(None)
      else
        var mapping := CaseMap(topics);
        var key := Lower(Strip(s));
        if key !in mapping then Failure(InvalidGroundTruth(s))
        else Success(Some(mapping[key]))
  }

  /** Of several topics matching a label, the one listed last is the canonical name. */
  lemma CanonicalIsLastMatch(topics: seq<string>, s: string, i: nat)
    requires s != ""
    requires i < |topics| && Lower(topics[i]) == Lower(Strip(s))
    requires forall j :: i < j < |topics| ==> Lower(topics[j]) != Lower(Strip(s))
    ensures CanonicalGroundTruth(topics, Some(s)) == Success(Some(topics[i]))
  {
    var p := CaseMapLaterWins(topics, i);
  }

  /** The outcome of _save_email on a log file: the new file and the returned id. */
  ghost predicate SavedAs(before: EmailsFile, after: EmailsFile, record: EmailRecord, r: Result<int, Error>) {
    match LoadEmails(before)
    case Failure(e) => r == Failure(e) && after == before
    case Success(emails) =>
      && r == Success(NextId(emails))
      && after == Document(Some(Appended(emails, record)))
  }

  /** What classify_email returns. */
  datatype Classification = Classification(
    predictedTopic: string,
    topicScores: map<string, real>,
    features: FeatureMap,
    availableTopics: seq<string>,
    email: Email)

  /** What get_pipeline_info returns. */
  datatype PipelineInfo = PipelineInfo(availableTopics: seq<string>, topicsWithDescriptions: TopicTable)

  class EmailTopicInferenceService {
    var model: EmailClassifierModel
    var emailsFile: EmailsFile

    ghost predicate Valid()
      reads this, model
    {
      model.Valid()
    }

    /** __init__ with the table read from the topic file and the email log file as it stands. */
    constructor (loaded: TopicTable, file: EmailsFile)
      requires loaded.Valid()
      ensures Valid() && fresh(model)
      ensures model.topicData == loaded && model.topics == loaded.keys
      ensures model.topicFile == Some(loaded)
      ensures emailsFile == file
    {
      model := new EmailClassifierModel(loaded);
      emailsFile := file;
    }

    /** add_topic: delegates to the model. */
    method AddTopic(topicName: string, description: string) returns (r: Result<seq<string>, Error>)
      requires Valid()
      modifies model
      ensures Valid()
      ensures r.Success? <==> Lower(topicName) !in old(model.topicData.descriptions)
      ensures r.Success? ==>
                && model.topicData == old(model.topicData).Put(Lower(topicName), description)
                && model.topics == old(model.topics) + [Lower(topicName)]
                && model.topicFile == SaveTopicData(old(model.topicFile), model.topicData)
                && r.value == model.topics
      ensures r.Failure? ==>
                && r.error == TopicAlreadyExists(Lower(topicName))
                && model.topicData == old(model.topicData)
                && model.topics == old(model.topics)
                && model.topicFile == old(model.topicFile)
    {
      r := model.AddTopic(topicName, description);
    }

    /** _save_email: assign max(ids, default 0) + 1, append the record, write the log back. */
    method SaveEmail(record: EmailRecord) returns (r: Result<int, Error>)
      modifies this`emailsFile
      ensures SavedAs(old(emailsFile), emailsFile, record, r)
      ensures r.Success? ==>
                && emailsFile.Document? && emailsFile.emails.Some? && emailsFile.emails.value != []
                && emailsFile.emails.value[|emailsFile.emails.value| - 1].id == Some(r.value)
    {
      var loaded := LoadEmails(emailsFile);
      if loaded.Failure? {
        return Failure(loaded.error);
      }
      var emails := loaded.value;
      var newId := MaxId(emails) + 1;
      var stored := record.(id := Some(newId));
      emails := emails + [stored];
      emailsFile := Document(Some(emails));
      r := Success(newId);
    }

    /**
     * store_email: validate and canonicalise the ground truth against the model's topics,
     * then save a record without id; an invalid label fails before the log is touched.
     */
    method StoreEmail(email: Email, groundTruth: Option<string>, features: FeatureMap) returns (r: Result<int, Error>)
      requires Valid()
      modifies this`emailsFile
      ensures Valid()
      ensures CanonicalGroundTruth(model.topics, groundTruth).Failure? ==>
                && r == CanonicalGroundTruth(model.topics, groundTruth).PropagateFailure()
                && emailsFile == old(emailsFile)
      ensures CanonicalGroundTruth(model.topics, groundTruth).Success? ==>
                var gt := CanonicalGroundTruth(model.topics, groundTruth).value;
                SavedAs(old(emailsFile), emailsFile, EmailRecord(None, email.subject, email.body, gt, features), r)
    {
      var gt := CanonicalGroundTruth(model.topics, groundTruth);
      if gt.Failure? {
        return Failure(gt.error);
      }
      var record := EmailRecord(None, email.subject, email.body, gt.value, features);
      r := SaveEmail(record);
    }

    /**
     * classify_email: predict, then score every topic. The prediction is the first topic
     * of minimal distance, and no topic scores above it.
     */
    method ClassifyEmail(exp: real -> real, email: Email, features: FeatureMap) returns (r: Result<Classification, Error>)
      requires Valid()
      requires IsExp(exp)
      ensures model.topics == [] ==> r == Failure(NoTopicsAvailable)
      ensures model.topics != [] && EmailEmbedding(features).None? ==> r == Failure(NonNumericEmbedding)
      ensures r.Success? ==>
                && model.topics != []
                && EmailEmbedding(features).Some?
                && r.value.predictedTopic ==
                   model.topics[FirstArgMin(DistanceList(EmailEmbedding(features).value, model.topicData.descriptions, model.topics))]
                && (forall t :: t in r.value.topicScores <==> t in model.topics)
                && (forall t :: t in r.value.topicScores ==>
                      r.value.topicScores[t] ==
                      Similarity(exp, Distance(EmailEmbedding(features).value, model.topicData.descriptions[t])))
                && r.value.predictedTopic in r.value.topicScores
                && (forall t :: t in r.value.topicScores ==> r.value.topicScores[t] <= r.value.topicScores[r.value.predictedTopic])
                && r.value.availableTopics == model.topics
                && r.value.features == features
                && r.value.email == email
      ensures model.topics != [] && EmailEmbedding(features).Some? ==> r.Success?
    {
      var predicted := model.Predict(exp, features);
      if predicted.Failure? {
        return Failure(predicted.error);
      }
      var scores := model.GetTopicScores(exp, features);
      r := Success(Classification(predicted.value, scores.value, features, model.topics, email));
    }

    /** get_pipeline_info: the topic list and the full table of descriptions. */
    function GetPipelineInfo(): (r: PipelineInfo)
      reads this, model
      requires Valid()
      ensures r.availableTopics == model.topics
      ensures r.topicsWithDescriptions == model.topicData
      ensures r.topicsWithDescriptions.keys == r.availableTopics
    {
      PipelineInfo(model.topics, model.GetAllTopicsWithDescriptions())
    }
  }

  /** On a collision under lower-casing the later topic is the canonical name; surrounding spaces are stripped. */
  lemma CollisionScenario()
    ensures CanonicalGroundTruth(["Billing", "billing"], Some(" BILLING ")) == Success(Some("billing"))
  {
    SpacedLabelNormalises();
    CanonicalIsLastMatch(["Billing", "billing"], " BILLING ", 1);
  }

  /** " BILLING " strips and lower-cases to the lower-case form of "billing". */
  lemma SpacedLabelNormalises()
    ensures Lower(Strip(" BILLING ")) == Lower("billing") == "billing"
  {
    StripSpacedLabel();
    LowerUpperLabel();
    LowerOfLowerCase("billing");
  }

  lemma StripSpacedLabel()
    ensures Strip(" BILLING ") == "BILLING"
  {
    assert " BILLING "[1..] == "BILLING ";
    assert LeadingSpaces("BILLING ") == 0;
    assert LeadingSpaces(" BILLING ") == 1;
    assert "BILLING "[..7] == "BILLING";
    assert TrailingSpaces("BILLING") == 0;
    assert TrailingSpaces("BILLING ") == 1;
  }

  lemma LowerUpperLabel()
    ensures Lower("BILLING") == "billing"
  {
  }

  /** A label whose first letter, after stripping, matches no topic's first letter up to case is rejected. */
  lemma FirstLetterMismatchRejected(topics: seq<string>, s: string)
    requires Strip(s) != []
    requires forall t :: t in topics ==> t != [] && LowerChar(t[0]) != LowerChar(Strip(s)[0])
    ensures CanonicalGroundTruth(topics, Some(s)) == Failure(InvalidGroundTruth(s))
  {
    forall t | t in topics
      ensures Lower(t) != Lower(Strip(s))
    {
      assert Lower(t)[0] != Lower(Strip(s))[0];
    }
  }

  /** "shipping" matches neither "Billing" nor "billing". */
  lemma UnknownLabelScenario()
    ensures CanonicalGroundTruth(["Billing", "billing"], Some("shipping")) == Failure(InvalidGroundTruth("shipping"))
  {
    StripKeepsTrimmed("shipping");
    FirstLetterMismatchRejected(["Billing", "billing"], "shipping");
  }

  /** A labelled store into an absent log writes the record with id 1; an unknown label writes nothing. */
  method StoreScenario() {
    var topics := TopicTable(["Billing", "billing"], map["Billing" := "invoice and payment issues", "billing" := "refunds"]);
    var service := new EmailTopicInferenceService(topics, Absent);
    CollisionScenario();
    UnknownLabelScenario();
    var stored := service.StoreEmail(Email("Invoice", "Where is it?"), Some(" BILLING "), map[]);
    assert stored == Success(1);
    assert service.emailsFile == Document(Some([EmailRecord(Some(1), "Invoice", "Where is it?", Some("billing"), map[])]));
    var before := service.emailsFile;
    var rejected := service.StoreEmail(Email("Parcel", "Late"), Some("shipping"), map[]);
    assert rejected == Failure(InvalidGroundTruth("shipping"));
    assert service.emailsFile == before;
  }
}
