/** The verification page's matching policy (`processImageEmbedding`) and the
    colour bands of its threshold slider and result cards. The similarity
    metric (the embedder's cosine similarity) is supplied by the caller. */
module VerifyFacePage {
  import opened Options
  import opened Decimal

  /** A quantized embedding vector. */
  type Embedding = seq<int>

  /** A stored identity with its embeddings (`FaceItemWithEmbedding`). */
  datatype FaceItem = FaceItem(id: int, name: string, embeddings: seq<Embedding>)

  /** One row of the result list. */
  datatype DetectedFace = DetectedFace(name: string, id: string, confidence: real)

  /** The largest value of a non-empty list (`maxOrNull` on a non-empty list). */
  function MaxOf(xs: seq<real>): (m: real)
    requires |xs| > 0
    ensures m in xs
    ensures forall i :: 0 <= i < |xs| ==> xs[i] <= m
  {
    if |xs| == 1 then xs[0]
    else
      var rest := MaxOf(xs[1..]);
      if xs[0] >= rest then xs[0] else rest
  }

  /** An identity's score: its best similarity to the query over all of its
      embeddings, 0.0 when it has none. */
  function Score(item: FaceItem, query: Embedding, similarity: (Embedding, Embedding) -> real): (score: real)
    ensures |item.embeddings| == 0 ==> score == 0.0
    ensures forall j :: 0 <= j < |item.embeddings| ==> similarity(item.embeddings[j], query) <= score
    ensures |item.embeddings| > 0 ==>
      exists j :: 0 <= j < |item.embeddings| && score == similarity(item.embeddings[j], query)
  {
    if |item.embeddings| == 0 then 0.0
    else
      var sims := seq(|item.embeddings|, j requires 0 <= j < |item.embeddings| => similarity(item.embeddings[j], query));
      var m := MaxOf(sims);
      assert forall j :: 0 <= j < |item.embeddings| ==> similarity(item.embeddings[j], query) == sims[j];
      m
  }

  function Detected(item: FaceItem, score: real): DetectedFace
  {
    DetectedFace(item.name, IntToString(item.id), score)
  }

  /** The row of some identity of the gallery, carrying that identity's score. */
  ghost predicate FromGallery(face: DetectedFace, query: Embedding, faceItems: seq<FaceItem>,
                              similarity: (Embedding, Embedding) -> real)
  {
    exists i :: 0 <= i < |faceItems| && face == Detected(faceItems[i], Score(faceItems[i], query, similarity))
  }

  /** The identities whose score is strictly above the threshold, in gallery
      order, each with its name, its id as a string, and its score. */
  function Matches(query: Embedding, faceItems: seq<FaceItem>, threshold: real,
                   similarity: (Embedding, Embedding) -> real): (result: seq<DetectedFace>)
    ensures |result| <= |faceItems|
    ensures forall k :: 0 <= k < |result| ==> result[k].confidence > threshold
    ensures forall k :: 0 <= k < |result| ==> FromGallery(result[k], query, faceItems, similarity)
    decreases |faceItems|
  {
    if faceItems == [] then []
    else
      var score := Score(faceItems[0], query, similarity);
      var rest := Matches(query, faceItems[1..], threshold, similarity);
      var head := if score > threshold then [Detected(faceItems[0], score)] else [];
      assert forall k :: 0 <= k < |rest| ==> FromGallery(rest[k], query, faceItems, similarity) by {
        forall k | 0 <= k < |rest|
          ensures FromGallery(rest[k], query, faceItems, similarity)
        {
          var i :| 0 <= i < |faceItems[1..]| &&
            rest[k] == Detected(faceItems[1..][i], Score(faceItems[1..][i], query, similarity));
          assert faceItems[1..][i] == faceItems[i + 1];
        }
      }
      head + rest
  }

  /** `processImageEmbedding`, with the `onUpdateList` callback modelled as its
      result (the callback is called exactly once, with this list). A query
      without a quantized vector yields the empty list. */
  function ProcessImageEmbedding(query: Option<Embedding>, faceItems: seq<FaceItem>, threshold: real,
                                 similarity: (Embedding, Embedding) -> real): (result: seq<DetectedFace>)
    ensures query.None? ==> result == []
    ensures faceItems == [] ==> result == []
    ensures query.Some? ==> result == Matches(query.value, faceItems, threshold, similarity)
  {
    match query
    case None => []
    case Some(vector) => Matches(vector, faceItems, threshold, similarity)
  }

  /** Matching distributes over the gallery: the result for a concatenation is
      the concatenation of the results, so the output keeps gallery order. */
  lemma {:induction false} MatchesAppend(query: Embedding, xs: seq<FaceItem>, ys: seq<FaceItem>, threshold: real,
                                         similarity: (Embedding, Embedding) -> real)
    ensures Matches(query, xs + ys, threshold, similarity)
         == Matches(query, xs, threshold, similarity) + Matches(query, ys, threshold, similarity)
    decreases |xs|
  {
    if xs == [] {
      assert xs + ys == ys;
    } else {
      assert (xs + ys)[0] == xs[0];
      assert (xs + ys)[1..] == xs[1..] + ys;
      MatchesAppend(query, xs[1..], ys, threshold, similarity);
      var score := Score(xs[0], query, similarity);
      var head := if score > threshold then [Detected(xs[0], score)] else [];
      calc {
        Matches(query, xs + ys, threshold, similarity);
        head + Matches(query, xs[1..] + ys, threshold, similarity);
        head + (Matches(query, xs[1..], threshold, similarity) + Matches(query, ys, threshold, similarity));
        (head + Matches(query, xs[1..], threshold, similarity)) + Matches(query, ys, threshold, similarity);
        Matches(query, xs, threshold, similarity) + Matches(query, ys, threshold, similarity);
      }
    }
  }

  /** A single identity is reported, with its score, exactly when that score
      exceeds the threshold. */
  lemma MatchesSingle(query: Embedding, item: FaceItem, threshold: real,
                      similarity: (Embedding, Embedding) -> real)
    ensures var score := Score(item, query, similarity);
      Matches(query, [item], threshold, similarity)
        == if score > threshold then [Detected(item, score)] else []
  {
    assert [item][1..] == [];
  }

  /** An identity's result row is in the output exactly when its score is
      strictly above the threshold. */
  lemma {:induction false} ReportedIff(query: Embedding, faceItems: seq<FaceItem>, i: int, threshold: real,
                                       similarity: (Embedding, Embedding) -> real)
    requires 0 <= i < |faceItems|
    ensures var score := Score(faceItems[i], query, similarity);
      Detected(faceItems[i], score) in Matches(query, faceItems, threshold, similarity) <==> score > threshold
  {
    var score := Score(faceItems[i], query, similarity);
    var result := Matches(query, faceItems, threshold, similarity);
    if score > threshold {
      assert faceItems == faceItems[..i] + [faceItems[i]] + faceItems[i + 1..];
      MatchesAppend(query, faceItems[..i] + [faceItems[i]], faceItems[i + 1..], threshold, similarity);
      MatchesAppend(query, faceItems[..i], [faceItems[i]], threshold, similarity);
      MatchesSingle(query, faceItems[i], threshold, similarity);
      var before := Matches(query, faceItems[..i], threshold, similarity);
      assert result[|before|] == Detected(faceItems[i], score);
    }
  }

  /** An identity with no stored embeddings scores 0.0, so it is reported
      exactly when the threshold is negative (the slider goes down to -1). */
  lemma EmptyIdentityReportedIff(query: Embedding, faceItems: seq<FaceItem>, i: int, threshold: real,
                                 similarity: (Embedding, Embedding) -> real)
    requires 0 <= i < |faceItems| && faceItems[i].embeddings == []
    ensures Detected(faceItems[i], 0.0) in Matches(query, faceItems, threshold, similarity) <==> threshold < 0.0
  {
    ReportedIff(query, faceItems, i, threshold, similarity);
  }

  /** The best-of-N policy on three stored embeddings scoring 0.2, 0.9 and
      0.5 against a threshold of 0.8: the identity is reported with 0.9. */
  lemma BestOfThreeExample(query: Embedding, item: FaceItem, similarity: (Embedding, Embedding) -> real)
    requires |item.embeddings| == 3
    requires similarity(item.embeddings[0], query) == 0.2
    requires similarity(item.embeddings[1], query) == 0.9
    requires similarity(item.embeddings[2], query) == 0.5
    ensures Matches(query, [item], 0.8, similarity) == [Detected(item, 0.9)]
  {
    var score := Score(item, query, similarity);
    assert score >= 0.9;
    var j :| 0 <= j < 3 && score == similarity(item.embeddings[j], query);
    assert score == 0.9;
    MatchesSingle(query, item, 0.8, similarity);
  }

  /** The four colour bands of the slider and the result cards. */
  datatype Band = Red | Blue | Yellow | Green

  function BandRank(b: Band): int
  {
    match b
    case Red => 0
    case Blue => 1
    case Yellow => 2
    case Green => 3
  }

  /** Cut points -0.5, 0 and 0.5; each band includes its lower bound. */
  function BandOf(value: real): (b: Band)
    ensures BandRank(b) ==
      (if value >= -0.5 then 1 else 0) + (if value >= 0.0 then 1 else 0) + (if value >= 0.5 then 1 else 0)
    ensures b == Red <==> value < -0.5
    ensures b == Blue <==> -0.5 <= value < 0.0
    ensures b == Yellow <==> 0.0 <= value < 0.5
    ensures b == Green <==> 0.5 <= value
  {
    if value < -0.5 then Red
    else if value < 0.0 then Blue
    else if value < 0.5 then Yellow
    else Green
  }

  /** The bands are ordered: a larger value never falls in a lower band. */
  lemma BandMonotone(x: real, y: real)
    requires x <= y
    ensures BandRank(BandOf(x)) <= BandRank(BandOf(y))
  {
  }

  /** A band colour with its transparency. */
  datatype Tint = Tint(band: Band, alpha: real)

  /** `getThresholdColor`. */
  function ThresholdColor(threshold: real): (c: Tint)
    ensures c.alpha == 0.7
    ensures c.band == Red <==> threshold < -0.5
    ensures c.band == Blue <==> -0.5 <= threshold < 0.0
    ensures c.band == Yellow <==> 0.0 <= threshold < 0.5
    ensures c.band == Green <==> 0.5 <= threshold
  {
    Tint(BandOf(threshold), 0.7)
  }

  /** `getConfidenceColor`: the same bands, less transparent. */
  function ConfidenceColor(confidence: real): (c: Tint)
    ensures c.alpha == 0.8
    ensures c.band == Red <==> confidence < -0.5
    ensures c.band == Blue <==> -0.5 <= confidence < 0.0
    ensures c.band == Yellow <==> 0.0 <= confidence < 0.5
    ensures c.band == Green <==> 0.5 <= confidence
  {
    Tint(BandOf(confidence), 0.8)
  }

  /** Every reported identity is shown in a band no lower than the
      threshold's. */
  lemma ReportedBandAtLeastThreshold(query: Embedding, faceItems: seq<FaceItem>, threshold: real,
                                     similarity: (Embedding, Embedding) -> real, k: int)
    requires 0 <= k < |Matches(query, faceItems, threshold, similarity)|
    ensures var face := Matches(query, faceItems, threshold, similarity)[k];
      BandRank(ConfidenceColor(face.confidence).band) >= BandRank(ThresholdColor(threshold).band)
  {
    var face := Matches(query, faceItems, threshold, similarity)[k];
    BandMonotone(threshold, face.confidence);
  }
}
