/**
 * The decision taken on the prediction server's reply: reject the batch when
 * no class reaches the confidence threshold, otherwise pick the most
 * confident class with the same left fold the page uses.
 */
module ResultSelector {

  /** One `{class, confidence}` record of the server's reply. */
  datatype Prediction = Prediction(className: string, confidence: real)

  /** What the page does with a reply: an error pop-up, or a diagnosis to show. */
  datatype Outcome = Rejected | Accepted(winner: Prediction)

  /** The confidence a class must reach for the reply to be used. */
  const Threshold: real := 0.5

  /** The class names the static description table has an entry for. */
  const DescribedLabels: set<string> :=
    {"Acne or Rosacea", "Malignant Lesions", "Psoriasis or Lichen Planus"}

  /** The description table has exactly these three keys and no other. */
  lemma DescriptionTableKeys()
    ensures |DescribedLabels| == 3
    ensures forall l :: l in DescribedLabels <==>
      l == "Acne or Rosacea" || l == "Malignant Lesions" || l == "Psoriasis or Lichen Planus"
  {
  }

  /** `data.every(v => v.confidence < 0.5)`: true on the empty list. */
  function AllBelowThreshold(data: seq<Prediction>): (r: bool)
    ensures r <==> forall i :: 0 <= i < |data| ==> data[i].confidence < Threshold
  {
    if data == [] then true
    else data[0].confidence < Threshold && AllBelowThreshold(data[1..])
  }

  /** The callback given to `reduce`: `a` survives only when strictly more confident. */
  function Keep(a: Prediction, b: Prediction): (r: Prediction)
    ensures a.confidence <= r.confidence && b.confidence <= r.confidence
    ensures r == b || (r == a && b.confidence < a.confidence)
  {
    if a.confidence > b.confidence then a else b
  }

  /** `k` is the position of the LAST entry of `s` with the greatest confidence. */
  ghost predicate IsLastMax(s: seq<Prediction>, k: int)
  {
    && 0 <= k < |s|
    && (forall j :: 0 <= j < |s| ==> s[j].confidence <= s[k].confidence)
    && (forall j :: k < j < |s| ==> s[j].confidence < s[k].confidence)
  }

  /** The left fold `reduce` performs, with running best `acc` and the entries still to visit. */
  function FoldMax(acc: Prediction, rest: seq<Prediction>): (r: Prediction)
    ensures r == acc || r in rest
    ensures acc.confidence <= r.confidence
    ensures forall i :: 0 <= i < |rest| ==> rest[i].confidence <= r.confidence
    decreases |rest|
  {
    if rest == [] then acc else FoldMax(Keep(acc, rest[0]), rest[1..])
  }

  /** `data.reduce(Keep)` without an initial value: defined only on a non-empty list. */
  function ReduceMax(data: seq<Prediction>): (r: Prediction)
    requires |data| > 0
    ensures r in data
    ensures forall i :: 0 <= i < |data| ==> data[i].confidence <= r.confidence
  {
    assert data == [data[0]] + data[1..];
    FoldMax(data[0], data[1..])
  }

  /** The whole selection rule of the submit handler. */
  function Select(data: seq<Prediction>): (o: Outcome)
    ensures o.Rejected? <==> forall i :: 0 <= i < |data| ==> data[i].confidence < Threshold
    ensures o.Accepted? ==> |data| > 0 && o.winner in data && Threshold <= o.winner.confidence
    ensures o.Accepted? ==> forall i :: 0 <= i < |data| ==> data[i].confidence <= o.winner.confidence
  {
    if AllBelowThreshold(data) then Rejected else Accepted(ReduceMax(data))
  }

  /** Every non-empty reply has a last-maximum position (unique by LastMaxUnique). */
  lemma {:induction false} LastMaxExists(s: seq<Prediction>)
    requires |s| > 0
    ensures exists k :: IsLastMax(s, k)
  {
    if |s| == 1 {
      assert IsLastMax(s, 0);
    } else {
      LastMaxExists(s[1..]);
      var k' :| IsLastMax(s[1..], k');
      if s[0].confidence > s[1 + k'].confidence {
        assert IsLastMax(s, 0);
      } else {
        assert IsLastMax(s, k' + 1);
      }
    }
  }

  /** Two last-maximum positions of the same reply coincide. */
  lemma LastMaxUnique(s: seq<Prediction>, k1: int, k2: int)
    requires IsLastMax(s, k1) && IsLastMax(s, k2)
    ensures k1 == k2
  {
    assert s[k1].confidence == s[k2].confidence;
  }

  /** The fold returns the entry at the last-maximum position of `[acc] + rest`. */
  lemma {:induction false} FoldMaxAtLastMax(acc: Prediction, rest: seq<Prediction>, k: int)
    requires IsLastMax([acc] + rest, k)
    ensures FoldMax(acc, rest) == ([acc] + rest)[k]
    decreases |rest|
  {
    if rest != [] {
      var s := [acc] + rest;
      var c := Keep(acc, rest[0]);
      var s' := [c] + rest[1..];
      assert s[0] == acc && s[1] == rest[0];
      assert acc.confidence <= s[k].confidence && rest[0].confidence <= s[k].confidence;
      assert forall j :: 1 <= j < |s'| ==> s'[j] == s[j + 1];
      if k == 0 {
        assert c == acc;
        assert IsLastMax(s', 0);
        FoldMaxAtLastMax(c, rest[1..], 0);
      } else if k == 1 {
        assert c == rest[0];
        assert IsLastMax(s', 0);
        FoldMaxAtLastMax(c, rest[1..], 0);
      } else {
        assert s'[k - 1] == s[k];
        assert IsLastMax(s', k - 1);
        FoldMaxAtLastMax(c, rest[1..], k - 1);
      }
    }
  }

  /** Tie-break: among equally confident entries the reduction keeps the last one. */
  lemma ReduceMaxIsLastMax(data: seq<Prediction>, k: int)
    requires IsLastMax(data, k)
    ensures ReduceMax(data) == data[k]
  {
    assert data == [data[0]] + data[1..];
    FoldMaxAtLastMax(data[0], data[1..], k);
  }

  /** An accepted reply yields exactly the last most-confident entry. */
  lemma SelectAcceptsLastMax(data: seq<Prediction>, k: int)
    requires IsLastMax(data, k) && Threshold <= data[k].confidence
    ensures Select(data) == Accepted(data[k])
  {
    ReduceMaxIsLastMax(data, k);
  }

  /** Two classes at 0.7: the second one is shown. */
  lemma TieGoesToLater()
    ensures Select([Prediction("A", 0.7), Prediction("B", 0.7)]) == Accepted(Prediction("B", 0.7))
  {
  }

  /** A confident reply is accepted with its top class. */
  lemma ConfidentReplyAccepted()
    ensures Select([Prediction("Acne or Rosacea", 0.91), Prediction("Malignant Lesions", 0.04),
                    Prediction("Psoriasis or Lichen Planus", 0.05)])
         == Accepted(Prediction("Acne or Rosacea", 0.91))
  {
  }

  /** A reply whose every class is under the threshold, and the empty reply, are rejected. */
  lemma UnsureRepliesRejected()
    ensures Select([Prediction("Acne or Rosacea", 0.2), Prediction("Malignant Lesions", 0.3),
                    Prediction("Psoriasis or Lichen Planus", 0.1)]) == Rejected
    ensures Select([]) == Rejected
  {
  }

  /** The selector accepts a label the description table has no entry for. */
  lemma UndescribedLabelAccepted()
    ensures Select([Prediction("Eczema", 0.9)]) == Accepted(Prediction("Eczema", 0.9))
    ensures "Eczema" !in DescribedLabels
  {
  }
}
