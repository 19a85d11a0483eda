/** The feature mapping produced by the (external) feature generator, and the one key the classifier reads. */
module Features {
  import opened Wrappers

  /** A generated feature value: a number, a boolean flag or text. */
  datatype FeatureValue = Number(n: real) | Flag(b: bool) | Text(s: string)

  type FeatureMap = map<string, FeatureValue>

  const EmbeddingKey: string := "email_embeddings_average_embedding"

  /**
   * The email's scalar embedding as the classifier's arithmetic sees it:
   * 0.0 when the key is absent, a flag as 0 or 1 (Python booleans are numbers),
   * and None for text, which makes the subtraction raise a TypeError.
   */
  function EmailEmbedding(features: FeatureMap): (r: Option<real>)
    ensures EmbeddingKey !in features ==> r == Some(0.0)
    ensures r.None? <==> EmbeddingKey in features && features[EmbeddingKey].Text?
    ensures EmbeddingKey in features && features[EmbeddingKey].Number? ==> r == Some(features[EmbeddingKey].n)
    ensures EmbeddingKey in features && features[EmbeddingKey].Flag? ==>
              r == Some(if features[EmbeddingKey].b then 1.0 else 0.0)
  {
    if EmbeddingKey !in features then Some(0.0)
    else match features[EmbeddingKey]
      case Number(n) => Some(n)
      case Flag(b) => Some(if b then 1.0 else 0.0)
      case Text(_) => None
  }
}
