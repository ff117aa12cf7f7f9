/**
 * The contact form's submit handler, from the moment the request settles:
 * the outcome picks a toast text and decides whether the form is reset.
 */
module ContactForm {
  import Toast

  /** How the POST ended: a response with its HTTP status, or a thrown transport error. */
  datatype Outcome = Responded(status: int) | NetworkError

  /** `res.ok`: the status lies in 200..299. */
  predicate ResponseOk(status: int)
  {
    200 <= status <= 299
  }

  const SentText: string := "Message sent successfully! \U{2705}"
  const FailedText: string := "Something went wrong. Please try again. \U{26A0}\U{FE0F}"
  const NetworkText: string := "Network error. Please try again later. \U{26A0}\U{FE0F}"

  /** What the handler does about an outcome. */
  datatype Reaction = Reaction(message: string, resetForm: bool)

  function React(o: Outcome): (r: Reaction)
    ensures r.resetForm <==> o.Responded? && ResponseOk(o.status)
    ensures r.message == SentText <==> o.Responded? && ResponseOk(o.status)
    ensures r.message == FailedText <==> o.Responded? && !ResponseOk(o.status)
    ensures r.message == NetworkText <==> o.NetworkError?
  {
    assert SentText[0] == 'M' && FailedText[0] == 'S' && NetworkText[0] == 'N';
    match o
    case Responded(status) =>
      if ResponseOk(status) then Reaction(SentText, true) else Reaction(FailedText, false)
    case NetworkError => Reaction(NetworkText, false)
  }

  /** The three outcome classes give three different texts; only success resets. */
  lemma OutcomesExclusive(a: Outcome, b: Outcome)
    ensures React(a).message == React(b).message <==>
            (a.NetworkError? && b.NetworkError?)
            || (a.Responded? && b.Responded? && ResponseOk(a.status) == ResponseOk(b.status))
  {
  }

  /** The form's field values; `reset()` restores the markup's defaults. */
  class Form {
    const defaults: map<string, string>
    var values: map<string, string>

    /** The form as the user left it before submitting. */
    constructor (defaults: map<string, string>, values: map<string, string>)
      ensures this.defaults == defaults && this.values == values
    {
      this.defaults := defaults;
      this.values := values;
    }

    /** The submit handler once the request has settled with `outcome` at time `now`. */
    method Settle(outcome: Outcome, toast: Toast.Notifier, now: int)
      modifies this`values, toast
      ensures toast.State() == Toast.Show(old(toast.State()), toast.present, React(outcome).message, now)
      ensures values == if React(outcome).resetForm then defaults else old(values)
    {
      match outcome {
        case Responded(status) =>
          if ResponseOk(status) {
            toast.ShowToast(SentText, now);
            values := defaults;
          } else {
            toast.ShowToast(FailedText, now);
          }
        case NetworkError =>
          toast.ShowToast(NetworkText, now);
      }
    }
  }
}
