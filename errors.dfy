/** The exceptions the core raises, one constructor per distinct failure. */
module Errors {

  datatype Error =
    | TopicAlreadyExists(name: string)     // ValueError raised by add_topic
    | NoTopicsAvailable                    // ValueError from max() over an empty score dict
    | NonNumericEmbedding                  // TypeError: a text feature cannot be subtracted from a float
    | UnknownTopic(topic: string)          // KeyError from a description lookup
    | InvalidGroundTruth(supplied: string) // HTTP 422 raised by store_email
    | StorageUnavailable                   // the email log exists but is not valid JSON
}
