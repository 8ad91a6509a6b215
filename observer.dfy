/**
 * The MutationObserver callback of lines 29-51: a debounce timer and the
 * `isLoading` flag decide when the vocabulary is fetched. Each browser event
 * is one method; time and the event loop stay outside.
 */
module Observer {
  import opened Wrappers
  import opened Records
  import opened Vocabulary

  /** How an issued `GET /vocabulary/overview` ends. */
  datatype Completion =
    | TransportFailure                                   // `onload` never runs
    | Loaded(status: int, body: Option<VocabularySet>)   // `None`: the body does not parse or has no `vocab_overview` array

  /** Whether `xhr.onload` reaches `handleVocabulary` with a parsed body. */
  predicate Handled(c: Completion)
  {
    c.Loaded? && c.status == 200 && c.body.Some?
  }

  class Detector {
    /** `isLoading` (line 29). */
    var isLoading: bool
    /** Whether `timeout` (line 30) holds a timer that has neither fired nor been cleared. */
    var pendingTimer: bool
    /** Fetches started whose request has not finished yet. */
    ghost var inFlight: nat

    /** Lines 29-30: nothing loading, no timer. */
    constructor ()
      ensures !isLoading && !pendingTimer && inFlight == 0
    {
      isLoading := false;
      pendingTimer := false;
      inFlight := 0;
    }

    /**
     * At most one fetch is outstanding, and none while the flag is clear.
     * Every event keeps it, except a timer firing away from the home screen.
     */
    ghost predicate Settled()
      reads this
    {
      inFlight <= 1 && (!isLoading ==> inFlight == 0)
    }

    /**
     * A mutation (lines 33-50): the pending timer is always cleared, and a new
     * one armed only if the panel `#user-skill-strength` is absent.
     */
    method OnMutation(panelPresent: bool)
      modifies this
      ensures pendingTimer == !panelPresent
      ensures isLoading == old(isLoading) && inFlight == old(inFlight)
      ensures old(Settled()) ==> Settled()
    {
      pendingTimer := false;
      if !panelPresent {
        pendingTimer := true;
      }
    }

    /**
     * The timer fires (lines 39-49). On the home screen a fetch starts only if
     * none is loading, and the flag is then set; elsewhere the flag is
     * cleared, whatever is still in flight.
     */
    method OnTimer(homeScreen: bool) returns (fetchStarted: bool)
      requires pendingTimer
      modifies this
      ensures fetchStarted == (homeScreen && !old(isLoading))
      ensures isLoading == homeScreen
      ensures !pendingTimer
      ensures inFlight == old(inFlight) + if fetchStarted then 1 else 0
      ensures homeScreen && old(Settled()) ==> Settled()
    {
      pendingTimer := false;
      fetchStarted := false;
      if homeScreen {
        if !isLoading {
          fetchStarted := true;
          inFlight := inFlight + 1;
        }
        isLoading := true;
      } else {
        isLoading := false;
      }
    }

    /**
     * A started request finishes (lines 78-90, 98-174). Only the success path
     * reaches `cb()` at line 174 and clears the flag: a transport failure, a
     * status other than 200, a body that does not parse, an empty vocabulary
     * (`average` throws) or a display that throws all leave it set.
     */
    method OnCompletion(c: Completion, now: int, displayOk: bool) returns (report: Option<Report>)
      requires inFlight > 0
      modifies this
      ensures report.Some? <==> Handled(c) && c.body.value.vocab != []
      ensures report.Some? ==> ReportOf(c.body.value, now, report.value)
      ensures isLoading == if report.Some? && displayOk then false else old(isLoading)
      ensures pendingTimer == old(pendingTimer)
      ensures inFlight == old(inFlight) - 1
      ensures old(Settled()) ==> Settled()
    {
      inFlight := inFlight - 1;
      report := None;
      if Handled(c) {
        report := HandleVocabulary(c.body.value, now);
        if report.Some? && displayOk {
          isLoading := false;
        }
      }
    }
  }

  /**
   * A burst of `n` mutations with the panel absent leaves one timer; when it
   * fires on the home screen exactly one fetch starts and nothing stays armed.
   */
  method BurstThenQuiet(n: nat) returns (fetchStarted: bool, timerArmed: bool)
    requires n >= 1
    ensures fetchStarted && !timerArmed
  {
    var d := new Detector();
    var k := 0;
    while k < n
      invariant 0 <= k <= n
      invariant !d.isLoading
      invariant k > 0 ==> d.pendingTimer
    {
      d.OnMutation(false);
      k := k + 1;
    }
    fetchStarted := d.OnTimer(true);
    timerArmed := d.pendingTimer;
  }

  /** A mutation while the panel is shown cancels the armed timer and arms none. */
  method PanelShownCancels() returns (timerArmed: bool)
    ensures !timerArmed
  {
    var d := new Detector();
    d.OnMutation(false);
    d.OnMutation(true);
    timerArmed := d.pendingTimer;
  }

  /** A second arrival at the home screen while loading starts no second fetch. */
  method SecondArrivalWhileLoading() returns (first: bool, second: bool)
    ensures first && !second
  {
    var d := new Detector();
    d.OnMutation(false);
    first := d.OnTimer(true);
    d.OnMutation(false);
    second := d.OnTimer(true);
  }

  /**
   * Leaving the home screen clears the flag although the first request has
   * not finished, so coming back starts a second, overlapping fetch.
   */
  method LeaveAndReturn() returns (first: bool, second: bool)
    ensures first && second
  {
    var d := new Detector();
    d.OnMutation(false);
    first := d.OnTimer(true);
    d.OnMutation(false);
    var away := d.OnTimer(false);
    d.OnMutation(false);
    second := d.OnTimer(true);
  }

  /**
   * A request that ends without `cb()` running (a transport error, a status
   * other than 200, a body that is not a vocabulary, an empty vocabulary, or
   * a display that throws) leaves the flag set, so the home screen starts no
   * new fetch until a timer fires elsewhere; after that, returning fetches
   * again.
   */
  method FailureBlocksUntilLeaving(c: Completion, now: int, displayOk: bool)
    returns (first: bool, retried: bool, recovered: bool)
    requires !(Handled(c) && c.body.value.vocab != [] && displayOk)
    ensures first && !retried && recovered
  {
    var d := new Detector();
    d.OnMutation(false);
    first := d.OnTimer(true);
    var report := d.OnCompletion(c, now, displayOk);
    d.OnMutation(false);
    retried := d.OnTimer(true);
    d.OnMutation(false);
    var away := d.OnTimer(false);
    d.OnMutation(false);
    recovered := d.OnTimer(true);
  }

  /** After a successful load and display, the next arrival fetches again. */
  method SuccessAllowsNextFetch(data: VocabularySet, now: int) returns (first: bool, shown: bool, next: bool)
    requires data.vocab != []
    ensures first && shown && next
  {
    var d := new Detector();
    d.OnMutation(false);
    first := d.OnTimer(true);
    var report := d.OnCompletion(Loaded(200, Some(data)), now, true);
    shown := report.Some?;
    d.OnMutation(false);
    next := d.OnTimer(true);
  }
}
