/** `generateWithRetry`, the bounded retry loop both generation routes wrap
    around the language-model call.  The model is an oracle: `call(i)` is
    the outcome of the `i`-th attempt.  Sleeping is modelled by the total
    number of milliseconds waited. */
module ModelRetry {

  /** One attempt: the text of the first candidate part (the empty string
      when the response has none), or a failure carrying
      `err.error.status` (the empty string when that is absent). */
  datatype Outcome = Reply(text: string) | Failure(status: string)

  /** What `generateWithRetry` does: return a response, throw the error of
      an attempt, or (with zero retries) fall off the loop and return
      `undefined`. */
  datatype RetryResult = Returned(text: string) | Thrown(status: string) | NoResponse

  const Unavailable: string := "UNAVAILABLE"
  const DefaultRetries: nat := 3
  const DefaultDelay: nat := 3000

  predicate Busy(o: Outcome) {
    o.Failure? && o.status == Unavailable
  }

  /** The attempt that ends the loop when it is entered at attempt `i`: the
      first attempt that is not a busy failure, or the last allowed one. */
  function StopFrom(call: nat -> Outcome, retries: nat, i: nat): (k: nat)
    requires i < retries
    ensures i <= k < retries
    ensures k == retries - 1 || !Busy(call(k))
    ensures forall j :: i <= j < k ==> Busy(call(j))
    decreases retries - i
  {
    if Busy(call(i)) && i < retries - 1 then StopFrom(call, retries, i + 1) else i
  }

  function Settle(o: Outcome): RetryResult {
    match o
    case Reply(t) => Returned(t)
    case Failure(st) => Thrown(st)
  }

  /** The result of `generateWithRetry(call, retries)`. */
  function Retry(call: nat -> Outcome, retries: nat): RetryResult {
    if retries == 0 then NoResponse else Settle(call(StopFrom(call, retries, 0)))
  }

  /** The number of model calls `generateWithRetry(call, retries)` makes. */
  function Calls(call: nat -> Outcome, retries: nat): nat {
    if retries == 0 then 0 else StopFrom(call, retries, 0) + 1
  }

  /** The loop itself, proved against `Retry` and `Calls`.  Each retry
      waits `delay` milliseconds first. */
  method GenerateWithRetry(call: nat -> Outcome, retries: nat, delay: nat)
    returns (r: RetryResult, calls: nat, waited: nat)
    ensures r == Retry(call, retries)
    ensures calls == Calls(call, retries)
    ensures waited == if calls == 0 then 0 else (calls - 1) * delay
  {
    var i := 0;
    waited := 0;
    while i < retries
      invariant 0 <= i <= retries
      invariant i == 0 || i < retries
      invariant waited == i * delay
      invariant i < retries ==> StopFrom(call, retries, 0) == StopFrom(call, retries, i)
      invariant forall j :: 0 <= j < i ==> Busy(call(j))
      decreases retries - i
    {
      var o := call(i);
      if o.Reply? {
        return Returned(o.text), i + 1, waited;
      }
      if o.status == Unavailable && i < retries - 1 {
        waited := waited + delay;
      } else {
        return Thrown(o.status), i + 1, waited;
      }
      i := i + 1;
    }
    return NoResponse, 0, waited;
  }

  /** At most `retries` model calls are made. */
  lemma CallBound(call: nat -> Outcome, retries: nat)
    ensures Calls(call, retries) <= retries
    ensures Calls(call, retries) == 0 <==> retries == 0
  {
  }

  /** Every attempt but the last failed with "UNAVAILABLE"; the last one is
      what the loop returns or throws. */
  lemma OnlyBusyIsRetried(call: nat -> Outcome, retries: nat)
    requires retries > 0
    ensures forall j :: 0 <= j < Calls(call, retries) - 1 ==> Busy(call(j))
    ensures Retry(call, retries) == Settle(call(Calls(call, retries) - 1))
  {
  }

  /** Any other error is rethrown at once: the first attempt that strays
      from "UNAVAILABLE" ends the loop. */
  lemma OtherErrorsThrowImmediately(call: nat -> Outcome, retries: nat, k: nat)
    requires k < retries
    requires forall j :: 0 <= j < k ==> Busy(call(j))
    requires call(k).Failure? && call(k).status != Unavailable
    ensures Calls(call, retries) == k + 1
    ensures Retry(call, retries) == Thrown(call(k).status)
  {
    StopIsFirstNonBusy(call, retries, 0, k);
  }

  /** A reply is returned as soon as it arrives. */
  lemma ReplyReturnedImmediately(call: nat -> Outcome, retries: nat, k: nat)
    requires k < retries
    requires forall j :: 0 <= j < k ==> Busy(call(j))
    requires call(k).Reply?
    ensures Calls(call, retries) == k + 1
    ensures Retry(call, retries) == Returned(call(k).text)
  {
    StopIsFirstNonBusy(call, retries, 0, k);
  }

  lemma {:induction false} StopIsFirstNonBusy(call: nat -> Outcome, retries: nat, i: nat, k: nat)
    requires i <= k < retries
    requires forall j :: i <= j < k ==> Busy(call(j))
    requires !Busy(call(k))
    ensures StopFrom(call, retries, i) == k
    decreases k - i
  {
    if i < k {
      StopIsFirstNonBusy(call, retries, i + 1, k);
    }
  }

  /** A model that is busy on every attempt is called exactly `retries`
      times, and its "UNAVAILABLE" error is finally rethrown. */
  lemma AlwaysBusy(call: nat -> Outcome, retries: nat)
    requires retries > 0
    requires forall j :: 0 <= j < retries ==> Busy(call(j))
    ensures Calls(call, retries) == retries
    ensures Retry(call, retries) == Thrown(Unavailable)
  {
  }

  /** With the default arguments a busy model costs three calls and six
      seconds of waiting. */
  lemma DefaultsAlwaysBusy(call: nat -> Outcome)
    requires forall j :: 0 <= j < DefaultRetries ==> Busy(call(j))
    ensures Calls(call, DefaultRetries) == 3
    ensures (Calls(call, DefaultRetries) - 1) * DefaultDelay == 6000
  {
    AlwaysBusy(call, DefaultRetries);
  }
}
