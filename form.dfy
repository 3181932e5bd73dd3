/**
 * The lookup form: its six pieces of state, the live validation of the typed
 * address, the submit handler with its three outcomes, the countdown tick and
 * the submit button's enabled condition.
 *
 * `App` holds the state as fields and changes it the way the component's
 * setters do. Each of its methods is tied to a pure transition on
 * `FormState`, and the lemmas below prove what those transitions keep.
 */
module Form {
  import Text
  import Ipv4
  import Ipv6

  datatype Option<T> = None | Some(value: T)

  /**
   * A decoded lookup response: the `status` and `message` the form inspects,
   * and the remaining fields as label/value text, which it only displays.
   */
  datatype IpInfo = IpInfo(status: string, message: Option<string>, details: seq<(string, string)>)

  /** How a request ended: a decoded body, or an exception from `fetch` or `json()`. */
  datatype FetchOutcome = Responded(data: IpInfo) | Threw

  const RequiredMessage: string := "IP manzilni kiritish majburiy! "
  const FormatMessage: string :=
    "IP manzil formati noto\U{2018}g\U{2018}ri. Yaroqli IPv4 yoki IPv6 manzilini kiriting."
  const LookupFailedMessage: string := "IP ma\U{02BC}lumotlarini olish amalga oshmadi"
  const LookupErrorMessage: string := "IP ma\U{02BC}lumotlarini olishda xatolik yuz berdi"

  /** The value the countdown starts from when a request is sent. */
  const CountdownStart: int := 10

  predicate IsIpAddress(v: string) { Ipv4.IsValidIPv4(v) || Ipv6.IsValidIPv6(v) }

  /** The message `validateIP(v)` leaves in `validationError`. */
  function ValidationMessage(v: string): string
  {
    if v == "" then RequiredMessage
    else if !Ipv4.IsValidIPv4(v) && !Ipv6.IsValidIPv6(v) then FormatMessage
    else ""
  }

  /** `data.message || fallback`: the service's message unless absent or empty. */
  function FailureMessage(data: IpInfo): (m: string)
    ensures m != ""
    ensures data.message.Some? && data.message.value != "" ==> m == data.message.value
  {
    match data.message
    case Some(text) => if text != "" then text else LookupFailedMessage
    case None => LookupFailedMessage
  }

  // ---------------------------------------------------------------------------
  // The state and its transitions

  datatype FormState = FormState(
    ip: string,
    ipInfo: Option<IpInfo>,
    loading: bool,
    error: string,
    validationError: string,
    countdown: int)

  /** The state the component is created with. */
  const Initial: FormState := FormState("", None, false, "", "", 0)

  /** `handleInputChange`: store the text, validate it unless it is empty. */
  function AfterEdit(st: FormState, value: string): FormState
  {
    st.(ip := value, validationError := if value != "" then ValidationMessage(value) else "")
  }

  /** `getIpInfo` up to the request: validate `ip`; when it passes, start the countdown. */
  function AfterStart(st: FormState): FormState
  {
    var message := ValidationMessage(st.ip);
    if message != "" then st.(validationError := message)
    else st.(validationError := "", countdown := CountdownStart, loading := true, error := "")
  }

  /** `getIpInfo` after the request: record the outcome, then reset the busy flag and countdown. */
  function AfterFinish(st: FormState, outcome: FetchOutcome): FormState
  {
    var settled :=
      match outcome
      case Responded(data) =>
        if data.status == "fail" then st.(error := FailureMessage(data), ipInfo := None)
        else st.(ipInfo := Some(data))
      case Threw => st.(error := LookupErrorMessage, ipInfo := None);
    settled.(loading := false, countdown := 0)
  }

  /** The whole of `getIpInfo`, given how its request ends. */
  function AfterSubmit(st: FormState, outcome: FetchOutcome): FormState
  {
    if ValidationMessage(st.ip) != "" then AfterStart(st) else AfterFinish(AfterStart(st), outcome)
  }

  /** One firing of the countdown effect. */
  function AfterTick(st: FormState): FormState
  {
    if st.countdown > 0 then st.(countdown := st.countdown - 1) else st
  }

  /** The negation of the button's `disabled` expression. */
  predicate SubmitEnabled(st: FormState)
  {
    !(st.loading || st.validationError != "" || st.ip == "")
  }

  /**
   * What can happen to the form: an edit of the input, a click on the
   * button (ignored while it is disabled), the pending request ending, and a
   * countdown tick.
   */
  datatype Event = Edit(value: string) | Click | Resolve(outcome: FetchOutcome) | Tick

  function Step(st: FormState, e: Event): FormState
  {
    match e
    case Edit(value) => AfterEdit(st, value)
    case Click => if SubmitEnabled(st) then AfterStart(st) else st
    case Resolve(outcome) => if st.loading then AfterFinish(st, outcome) else st
    case Tick => AfterTick(st)
  }

  function Run(st: FormState, events: seq<Event>): FormState
    decreases |events|
  {
    if events == [] then st else Run(Step(st, events[0]), events[1..])
  }

  /**
   * What holds of every state the form can reach: the countdown stays in
   * 0..10 and is 0 while idle; no error is shown while a request is pending;
   * a record and an error are never shown together; and the validation
   * message is the one `validateIP` gives for the current text, or empty for
   * empty text.
   */
  predicate Inv(st: FormState)
  {
    0 <= st.countdown <= CountdownStart &&
    (!st.loading ==> st.countdown == 0) &&
    (st.loading ==> st.error == "") &&
    (st.ipInfo.Some? ==> st.error == "") &&
    (st.validationError == ValidationMessage(st.ip) || (st.ip == "" && st.validationError == ""))
  }

  // ---------------------------------------------------------------------------
  // Lemmas

  /** The empty string is neither an IPv4 nor an IPv6 literal. */
  lemma EmptyIsNotAddress()
    ensures !IsIpAddress("")
  {
    assert Text.Split("", '.') == [""];
    assert Text.Split("", ':') == [""];
  }

  /**
   * `validateIP(v)`: the "required" message for empty text, the "bad format"
   * message for text neither validator accepts, and no message exactly when
   * the text is an address.
   */
  lemma ValidationVerdict(v: string)
    ensures v == "" ==> ValidationMessage(v) == RequiredMessage
    ensures v != "" && !IsIpAddress(v) ==> ValidationMessage(v) == FormatMessage
    ensures ValidationMessage(v) == "" <==> IsIpAddress(v)
  {
    EmptyIsNotAddress();
  }

  lemma InitialSatisfiesInv()
    ensures Inv(Initial)
  {
  }

  lemma StepPreservesInv(st: FormState, e: Event)
    requires Inv(st)
    ensures Inv(Step(st, e))
  {
    match e
    case Edit(value) =>
    case Click =>
    case Resolve(outcome) =>
    case Tick =>
  }

  lemma {:induction false} RunPreservesInv(st: FormState, events: seq<Event>)
    requires Inv(st)
    ensures Inv(Run(st, events))
    decreases |events|
  {
    if events != [] {
      StepPreservesInv(st, events[0]);
      RunPreservesInv(Step(st, events[0]), events[1..]);
    }
  }

  /**
   * After any sequence of events from the initial state the countdown is
   * never negative, and a record and an error are never shown together.
   */
  lemma ReachableStatesAreConsistent(events: seq<Event>)
    ensures var st := Run(Initial, events);
      0 <= st.countdown <= CountdownStart && !(st.ipInfo.Some? && st.error != "")
  {
    RunPreservesInv(Initial, events);
  }

  /** In every reachable state the button is enabled exactly when idle with an address typed. */
  lemma SubmitEnabledIff(st: FormState)
    requires Inv(st)
    ensures SubmitEnabled(st) <==> !st.loading && IsIpAddress(st.ip)
  {
    ValidationVerdict(st.ip);
  }

  /** A click on the enabled button always passes the re-validation and sends the request. */
  lemma EnabledClickStartsRequest(st: FormState)
    requires Inv(st) && SubmitEnabled(st)
    ensures var next := AfterStart(st);
      next.loading && next.countdown == CountdownStart && next.error == "" &&
      next.validationError == "" && next.ip == st.ip && next.ipInfo == st.ipInfo
  {
    SubmitEnabledIff(st);
    ValidationVerdict(st.ip);
  }

  /**
   * Submitting text that fails validation changes only the validation
   * message, and what the request would have returned plays no part.
   */
  lemma SubmitInvalidOnlyValidates(st: FormState, outcome: FetchOutcome, other: FetchOutcome)
    requires !IsIpAddress(st.ip)
    ensures var next := AfterSubmit(st, outcome);
      next.validationError == ValidationMessage(st.ip) && next.validationError != "" &&
      next.ip == st.ip && next.ipInfo == st.ipInfo && next.loading == st.loading &&
      next.error == st.error && next.countdown == st.countdown &&
      next == AfterSubmit(st, other)
  {
    ValidationVerdict(st.ip);
  }

  /**
   * Submitting an address always ends idle with the countdown at 0, and with
   * exactly one of a record and an error shown: the record for any status
   * but "fail", the service's message (or the fallback) for "fail", and the
   * generic message for an exception.
   */
  lemma SubmitValidSettles(st: FormState, outcome: FetchOutcome)
    requires IsIpAddress(st.ip)
    ensures var next := AfterSubmit(st, outcome);
      !next.loading && next.countdown == 0 && next.validationError == "" && next.ip == st.ip &&
      (next.ipInfo.Some? <==> next.error == "") &&
      (outcome.Threw? ==> next.error == LookupErrorMessage && next.ipInfo == None) &&
      (outcome.Responded? && outcome.data.status == "fail" ==>
        next.error == FailureMessage(outcome.data) && next.ipInfo == None) &&
      (outcome.Responded? && outcome.data.status != "fail" ==>
        next.ipInfo == Some(outcome.data) && next.error == "")
  {
    ValidationVerdict(st.ip);
  }

  /** The countdown goes down by exactly one while positive and never below zero. */
  lemma TickNeverNegative(st: FormState)
    requires st.countdown >= 0
    ensures AfterTick(st).countdown >= 0
    ensures st.countdown > 0 ==> AfterTick(st).countdown == st.countdown - 1
    ensures st.countdown == 0 ==> AfterTick(st) == st
  {
  }

  // ---------------------------------------------------------------------------
  // The component

  class App {
    var ip: string
    var ipInfo: Option<IpInfo>
    var loading: bool
    var error: string
    var validationError: string
    var countdown: int

    function State(): FormState
      reads this
    {
      FormState(ip, ipInfo, loading, error, validationError, countdown)
    }

    ghost predicate Valid()
      reads this
    {
      Inv(State())
    }

    constructor ()
      ensures Valid() && State() == Initial
    {
      ip, ipInfo, loading, error, validationError, countdown := "", None, false, "", "", 0;
    }

    /** `validateIP`: set the validation message for `value` and return the verdict. */
    method ValidateIP(value: string) returns (ok: bool)
      modifies this`validationError
      ensures ok <==> IsIpAddress(value)
      ensures value == "" ==> validationError == RequiredMessage
      ensures value != "" && !ok ==> validationError == FormatMessage
      ensures ok ==> validationError == ""
      ensures validationError == ValidationMessage(value)
    {
      if value == "" {
        EmptyIsNotAddress();
        validationError := RequiredMessage;
        return false;
      }
      if !Ipv4.IsValidIPv4(value) && !Ipv6.IsValidIPv6(value) {
        validationError := FormatMessage;
        return false;
      }
      validationError := "";
      return true;
    }

    /** `handleInputChange`: store the text; validate it, or clear the message if it is empty. */
    method HandleInputChange(value: string)
      requires Valid()
      modifies this`ip, this`validationError
      ensures Valid()
      ensures ip == value
      ensures value != "" ==> validationError == ValidationMessage(value)
      ensures value == "" ==> validationError == ""
      ensures State() == AfterEdit(old(State()), value)
    {
      ip := value;
      if value != "" {
        var _ := ValidateIP(value);
      } else {
        validationError := "";
      }
    }

    /** `getIpInfo` up to the request: re-validate `ip`, then start the countdown and clear the error. */
    method StartLookup() returns (started: bool)
      requires Valid()
      modifies this
      ensures Valid()
      ensures started <==> IsIpAddress(ip)
      ensures validationError == ValidationMessage(ip)
      ensures started ==> loading && countdown == CountdownStart && error == ""
      ensures !started ==>
        loading == old(loading) && countdown == old(countdown) && error == old(error)
      ensures ip == old(ip) && ipInfo == old(ipInfo)
      ensures State() == AfterStart(old(State()))
    {
      started := ValidateIP(ip);
      if !started {
        return;
      }
      countdown := CountdownStart;
      loading := true;
      error := "";
    }

    /** `getIpInfo` after the request: record the outcome, then the `finally` reset. */
    method FinishLookup(outcome: FetchOutcome)
      requires Valid() && loading
      modifies this
      ensures Valid()
      ensures !loading && countdown == 0
      ensures ip == old(ip) && validationError == old(validationError)
      ensures outcome.Threw? ==> error == LookupErrorMessage && ipInfo == None
      ensures outcome.Responded? && outcome.data.status == "fail" ==>
        error == FailureMessage(outcome.data) && ipInfo == None
      ensures outcome.Responded? && outcome.data.status != "fail" ==>
        ipInfo == Some(outcome.data) && error == ""
      ensures State() == AfterFinish(old(State()), outcome)
    {
      match outcome {
        case Responded(data) =>
          if data.status == "fail" {
            error := FailureMessage(data);
            ipInfo := None;
          } else {
            ipInfo := Some(data);
          }
        case Threw =>
          error := LookupErrorMessage;
          ipInfo := None;
      }
      loading := false;
      countdown := 0;
    }

    /** `getIpInfo` as a whole, given how its request ends. */
    method GetIpInfo(outcome: FetchOutcome)
      requires Valid()
      modifies this
      ensures Valid()
      ensures !IsIpAddress(old(ip)) ==>
        validationError == ValidationMessage(old(ip)) && ip == old(ip) && ipInfo == old(ipInfo) &&
        loading == old(loading) && error == old(error) && countdown == old(countdown)
      ensures IsIpAddress(old(ip)) ==> !loading && countdown == 0 && validationError == ""
      ensures State() == AfterSubmit(old(State()), outcome)
    {
      var started := StartLookup();
      if started {
        FinishLookup(outcome);
      }
      ValidationVerdict(old(ip));
    }

    /** The countdown effect firing once: one less while positive. */
    method Tick()
      requires Valid()
      modifies this`countdown
      ensures Valid()
      ensures old(countdown) > 0 ==> countdown == old(countdown) - 1
      ensures old(countdown) <= 0 ==> countdown == old(countdown)
      ensures State() == AfterTick(old(State()))
    {
      if countdown > 0 {
        countdown := countdown - 1;
      }
    }

    /** Whether the button may be pressed: enabled exactly when idle with an address typed. */
    function CanSubmit(): (enabled: bool)
      reads this
      requires Valid()
      ensures enabled <==> !loading && IsIpAddress(ip)
    {
      SubmitEnabledIff(State());
      SubmitEnabled(State())
    }
  }
}
