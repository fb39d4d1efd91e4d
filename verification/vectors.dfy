/** Embeddings and the numerator of cosine similarity. The service's
    similarity itself (numpy floats, a square-root norm) is left abstract:
    every operation takes it as a parameter `sim`. */
module Vectors {

  /** A vector returned by the embedding service. */
  type Embedding = seq<real>

  /** The similarity the service computes between two embeddings. */
  type Similarity = (Embedding, Embedding) -> real

  /** `np.dot(a, b)` over exact reals. */
  function Dot(a: Embedding, b: Embedding): real
    requires |a| == |b|
  {
    if |a| == 0 then 0.0 else Dot(a[..|a| - 1], b[..|b| - 1]) + a[|a| - 1] * b[|b| - 1]
  }

  /** The dot product, and so cosine similarity, does not depend on argument order. */
  lemma {:induction false} DotSymmetric(a: Embedding, b: Embedding)
    requires |a| == |b|
    ensures Dot(a, b) == Dot(b, a)
  {
    if |a| > 0 {
      DotSymmetric(a[..|a| - 1], b[..|b| - 1]);
    }
  }
}
