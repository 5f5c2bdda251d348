/**
 * The page's diagnosis state and the submit handler that drives it. The
 * handler runs in two halves around the request to the prediction server:
 * the text guard and the state reset before it, the selection and the
 * result after it. The server's reply is a parameter of the second half.
 */
module SkinForm {
  import opened Wrappers
  import opened SymptomText
  import opened ResultSelector

  /** What a press of the submit button ends in. */
  datatype SubmitOutcome =
    | Ignored                   // no description typed: nothing happens
    | TooShort(count: nat)      // the "at least 5 words" pop-up
    | Unrecognised              // the "upload different image" pop-up
    | Diagnosed(p: Prediction)  // the result panel shows `p`

  /** The two pieces of component state the submit handler writes. */
  class DiagnosisState {
    /** The diagnosis on display; None renders no result panel. */
    var disease: Option<Prediction>
    /** True while a request is outstanding; the button shows its spinner. */
    var isPredicting: bool

    /** The initial state: nothing shown, nothing outstanding. */
    constructor ()
      ensures disease == None && !isPredicting
    {
      disease := None;
      isPredicting := false;
    }

    /**
     * The part of the handler before the request: the text guard, then the
     * reset of the shown diagnosis and the start of the spinner.
     */
    method StartSubmit(text: Option<string>) returns (v: TextVerdict)
      modifies this
      ensures v == CheckSymptoms(text)
      ensures v.Described? ==> disease == None && isPredicting
      ensures !v.Described? ==> disease == old(disease) && isPredicting == old(isPredicting)
    {
      v := CheckSymptoms(text);
      if v.Described? {
        disease := None;
        isPredicting := true;
      }
    }

    /**
     * The part of the handler after the reply: the spinner stops, and the
     * diagnosis is replaced only when the reply is accepted.
     */
    method FinishSubmit(reply: seq<Prediction>) returns (o: Outcome)
      modifies this
      ensures o == Select(reply)
      ensures !isPredicting
      ensures disease == if o.Accepted? then Some(o.winner) else old(disease)
    {
      o := Select(reply);
      if o.Rejected? {
        isPredicting := false;
        return;
      }
      disease := Some(o.winner);
      isPredicting := false;
    }

    /** The whole handler, given the reply the server would send to this submission. */
    method OnSubmit(text: Option<string>, reply: seq<Prediction>) returns (r: SubmitOutcome)
      modifies this
      ensures CheckSymptoms(text).NoText? ==>
        r == Ignored && disease == old(disease) && isPredicting == old(isPredicting)
      ensures CheckSymptoms(text).TooFewWords? ==>
        r == TooShort(CheckSymptoms(text).count)
        && disease == old(disease) && isPredicting == old(isPredicting)
      ensures CheckSymptoms(text).Described? && Select(reply).Rejected? ==>
        r == Unrecognised && disease == None && !isPredicting
      ensures CheckSymptoms(text).Described? && Select(reply).Accepted? ==>
        r == Diagnosed(Select(reply).winner) && disease == Some(Select(reply).winner) && !isPredicting
    {
      var v := StartSubmit(text);
      match v
      case NoText =>
        r := Ignored;
      case TooFewWords(n) =>
        r := TooShort(n);
      case Described =>
        var o := FinishSubmit(reply);
        match o
        case Rejected =>
          r := Unrecognised;
        case Accepted(p) =>
          r := Diagnosed(p);
    }
  }

  /** The first submission after the page loads, with a description that passes the guard. */
  method SubmitOnFreshPage(text: Option<string>, reply: seq<Prediction>) returns (r: SubmitOutcome)
    requires CheckSymptoms(text).Described?
    ensures Select(reply).Accepted? ==> r.Diagnosed? && r.p in reply && Threshold <= r.p.confidence
    ensures Select(reply).Rejected? <==> r == Unrecognised
  {
    var form := new DiagnosisState();
    r := form.OnSubmit(text, reply);
  }
}
