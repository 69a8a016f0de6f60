/** The webconfig run: up to 26 attempts to fetch the configuration document, and
    the report that ends it. */
module WebconfigSync {
  import opened Common
  import opened CText

  // -------------------------------------------------------------- the first digit

  /** (int)log10(n) */
  function Log10(n: nat): (k: nat)
    requires n >= 1
    ensures Pow10(k) <= n < Pow10(k + 1)
  {
    if n < 10 then 0
    else
      var k := Log10(n / 10);
      assert Pow10(k + 1) == 10 * Pow10(k) && Pow10(k + 2) == 10 * Pow10(k + 1);
      k + 1
  }

  /** (int)(n / pow(10, (int)log10(n))), the division being one of doubles. */
  function FirstDigit(n: nat): int
    requires n >= 1
  {
    (n as real / Pow10(Log10(n)) as real).Floor
  }

  lemma Cancel(x: real, y: real, b: real)
    requires b > 0.0 && x * b <= y * b
    ensures x <= y
  {
  }

  lemma CancelStrict(x: real, y: real, b: real)
    requires b > 0.0 && x * b < y * b
    ensures x < y
  {
  }

  /** a/b lies between lo and hi when a lies between their multiples. */
  lemma QuotientBetween(a: real, b: real, lo: real, hi: real)
    requires b > 0.0 && lo * b <= a < hi * b
    ensures lo <= a / b < hi
  {
    var x := a / b;
    assert x * b == a;
    Cancel(lo, x, b);
    CancelStrict(x, hi, b);
  }

  lemma CastProduct(q: int, b: int, n: int, x: real, y: real)
    requires x == q as real && y == b as real && n == q * b
    ensures x * y == n as real
  {
  }

  /** a/b rounded down is the same number for reals and for integers. */
  lemma RealQuotient(a: nat, b: nat)
    requires b >= 1
    ensures (a as real / b as real).Floor == a / b
  {
    var q, m, n := a / b, a - a % b, a - a % b + b;
    var y, lo, hi := b as real, q as real, (q + 1) as real;
    CastProduct(q, b, m, lo, y);
    assert (q + 1) * b == q * b + b;
    CastProduct(q + 1, b, n, hi, y);
    assert m <= a < n;
    QuotientBetween(a as real, y, lo, hi);
  }

  lemma MulMonotone(x: int, y: int, b: nat)
    requires x <= y
    ensures x * b <= y * b
  {
    assert (y - x) * b >= 0;
    assert y * b == x * b + (y - x) * b;
  }

  lemma QuotientRange(n: nat, b: nat)
    requires 1 <= b <= n < 10 * b
    ensures 1 <= n / b <= 9
  {
    var q := n / b;
    assert n == q * b + n % b;
    if q >= 10 {
      MulMonotone(10, q, b);
    } else if q <= 0 {
      MulMonotone(q, 0, b);
    }
  }

  /** The test agrees with integer division by the greatest power of ten that is
      not above the number, and it sees a digit. */
  lemma FirstDigitIsQuotient(n: nat)
    requires n >= 1
    ensures FirstDigit(n) == n / Pow10(Log10(n))
    ensures 1 <= FirstDigit(n) <= 9
  {
    var b := Pow10(Log10(n));
    assert Pow10(Log10(n) + 1) == 10 * b;
    RealQuotient(n, b);
    QuotientRange(n, b);
  }

  /** For three-digit codes the test says 400 to 499. */
  lemma FourHundreds(code: nat)
    requires 100 <= code <= 999
    ensures FirstDigit(code) == 4 <==> 400 <= code <= 499
  {
    FirstDigitIsQuotient(code);
    assert Pow10(1) == 10 && Pow10(2) == 100 && Pow10(3) == 1000;
    Log10Is(code, 2);
  }

  lemma {:induction false} Pow10Grows(a: nat, b: nat)
    requires a <= b
    ensures Pow10(a) <= Pow10(b)
    decreases b
  {
    if a < b {
      Pow10Grows(a, b - 1);
    }
  }

  lemma Log10Is(n: nat, k: nat)
    requires n >= 1 && Pow10(k) <= n < Pow10(k + 1)
    ensures Log10(n) == k
  {
    var j := Log10(n);
    if j < k {
      Pow10Grows(j + 1, k);
    } else if k < j {
      Pow10Grows(k + 1, j);
    }
  }

  // ------------------------------------------------------------ handleHttpResponse

  const SUCCESS: int := 0
  const ERR: int := 1

  datatype Applied = NoStatus | AppliedSuccess | AppliedFailed

  datatype Report = Report(code: int, applied: Applied)

  /** What one attempt meets. `undefinedDigit` is whatever the first-digit
      expression yields where log10 has no value. */
  datatype Attempt = Attempt(macKnown: bool, fetched: bool, code: int, hasData: bool, jsonOk: bool,
                             undefinedDigit: int)

  datatype Handled = Handled(rv: int, report: Option<Report>)

  function Digit(a: Attempt): int {
    if a.code >= 1 then FirstDigit(a.code) else a.undefinedDigit
  }

  function Handle(a: Attempt, retryCount: nat): Handled {
    var plain := Some(Report(a.code, NoStatus));
    if a.code == 304 then Handled(SUCCESS, plain)
    else if a.code == 200 && a.hasData then
      Handled(SUCCESS, Some(Report(200, if a.jsonOk then AppliedSuccess else AppliedFailed)))
    else if a.code == 204 then Handled(SUCCESS, plain)
    else if a.code == 404 then Handled(ERR, None)
    else if a.code == 429 then Handled(SUCCESS, None)
    else if a.code != 403 && Digit(a) == 4 then Handled(SUCCESS, plain)
    else if retryCount >= 25 then Handled(ERR, plain)
    else Handled(ERR, None)
  }

  /** The responses after which no retry is needed. */
  predicate Ends(a: Attempt) {
    a.code in {304, 204, 429} || (a.code == 200 && a.hasData) || (a.code !in {403, 404} && Digit(a) == 4)
  }

  /** What a report says. */
  predicate Tells(report: Report, a: Attempt) {
    && report.code == a.code
    && (report.applied == AppliedSuccess <==> a.code == 200 && a.hasData && a.jsonOk)
    && (report.applied == AppliedFailed <==> a.code == 200 && a.hasData && !a.jsonOk)
  }

  /** The response table, by code: which responses end the run, and which are
      reported; the others are reported only by the last attempt, and 404 and 429
      never. */
  lemma HandledByCode(a: Attempt, retryCount: nat)
    ensures var h := Handle(a, retryCount);
            && h.rv == (if Ends(a) then 0 else 1)
            && (h.report.Some? <==> a.code !in {404, 429} && (Ends(a) || retryCount >= 25))
            && (h.report.Some? ==> Tells(h.report.value, a))
    ensures 100 <= a.code <= 999 ==> (Digit(a) == 4 <==> 400 <= a.code <= 499)
    ensures a.code >= 1 ==> 1 <= Digit(a) <= 9 && Digit(a) == a.code / Pow10(Log10(a.code))
    ensures a.code < 1 ==> (Ends(a) <==> a.undefinedDigit == 4)
  {
    hide FirstDigit;
    if a.code >= 1 {
      FirstDigitIsQuotient(a.code);
    }
    FourHundreds(200);
    if 100 <= a.code <= 999 {
      FourHundreds(a.code);
    }
  }

  /** Whether handleHttpResponse is reached. */
  predicate Answered(a: Attempt) {
    a.macKnown && a.fetched
  }

  // ------------------------------------------------------------ processWebconfigSync

  const MAX_ATTEMPTS: nat := 26

  /** The variable rv after the first k attempts: it starts as SUCCESS and keeps its
      value when an attempt does not reach the response. */
  function Rv(attempts: nat -> Attempt, k: nat): int {
    if k == 0 then SUCCESS
    else if Answered(attempts(k - 1)) then Handle(attempts(k - 1), k - 1).rv
    else Rv(attempts, k - 1)
  }

  predicate Stops(attempts: nat -> Attempt, k: nat) {
    attempts(k).macKnown && Rv(attempts, k + 1) == SUCCESS
  }

  function ReportOf(attempts: nat -> Attempt, k: nat): Option<Report> {
    if Answered(attempts(k)) then Handle(attempts(k), k).report else None
  }

  /** The run makes its attempt k. */
  ghost predicate Reached(attempts: nat -> Attempt, k: nat) {
    k < MAX_ATTEMPTS && forall j: nat :: j < k ==> !Stops(attempts, j)
  }

  /** handleHttpResponse, branch by branch. */
  method HandleHttpResponse(a: Attempt, retryCount: nat) returns (rv: int, report: Option<Report>)
    ensures Handled(rv, report) == Handle(a, retryCount)
    ensures rv == (if Ends(a) then 0 else 1)
    ensures report.Some? <==> a.code !in {404, 429} && (Ends(a) || retryCount >= 25)
    ensures report.Some? ==> Tells(report.value, a)
  {
    HandledByCode(a, retryCount);
    report := None;
    if a.code == 304 {
      return SUCCESS, Some(Report(a.code, NoStatus));
    } else if a.code == 200 {
      if a.hasData {
        return SUCCESS, Some(Report(a.code, if a.jsonOk then AppliedSuccess else AppliedFailed));
      }
    } else if a.code == 204 {
      return SUCCESS, Some(Report(a.code, NoStatus));
    } else if a.code == 403 {
      // a new token is fetched; the error is returned below
    } else if a.code == 404 {
      return ERR, None;
    } else if a.code == 429 {
      return SUCCESS, None;
    }
    var firstDigit := Digit(a);
    if a.code != 403 && firstDigit == 4 {
      return SUCCESS, Some(Report(a.code, NoStatus));
    } else if retryCount >= 25 {
      return ERR, Some(Report(a.code, NoStatus));
    }
    rv := ERR;
  }

  /** Attempt k is the one that needs no retry: its response ends the run, or its
      fetch failed and no response came before. */
  ghost predicate EndsAt(attempts: nat -> Attempt, k: nat) {
    && attempts(k).macKnown
    && if attempts(k).fetched then Ends(attempts(k))
       else forall j: nat :: j < k ==> !(attempts(j).macKnown && attempts(j).fetched)
  }

  /** The run: the attempts it makes are the reachable ones, up to the first that
      needs no retry or the 26th, and at most the last of them sends a report. */
  method ProcessWebconfigSync(attempts: nat -> Attempt) returns (made: nat, report: Option<Report>)
    ensures 1 <= made <= MAX_ATTEMPTS
    ensures forall k: nat :: k < made <==> Reached(attempts, k)
    ensures forall k: nat :: k + 1 < made ==> ReportOf(attempts, k) == None
    ensures report == ReportOf(attempts, made - 1)
    ensures made <= 26 && (forall k: nat :: k + 1 < made ==> !EndsAt(attempts, k))
    ensures made < 26 ==> EndsAt(attempts, made - 1)
    ensures var last := attempts(made - 1);
            && (report.Some? <==> && last.macKnown && last.fetched && last.code !in {404, 429}
                                  && (Ends(last) || made == 26))
            && (report.Some? ==> Tells(report.value, last))
  {
    var retryCount, rv := 0, SUCCESS;
    made, report := 0, None;
    while true
      invariant made == retryCount <= MAX_ATTEMPTS
      invariant rv == Rv(attempts, retryCount)
      invariant forall k: nat :: k < retryCount ==> !Stops(attempts, k)
      invariant forall k: nat :: k + 1 < retryCount ==> ReportOf(attempts, k) == None
      invariant retryCount == 0 ==> report == None
      invariant retryCount > 0 ==> report == ReportOf(attempts, retryCount - 1)
      decreases MAX_ATTEMPTS - retryCount
    {
      if retryCount > 25 {
        break;
      }
      if retryCount > 0 {
        NoReportBefore(attempts, retryCount - 1);
      }
      var a := attempts(retryCount);
      made, report := made + 1, None;
      if a.macKnown {
        if a.fetched {
          rv, report := HandleHttpResponse(a, retryCount);
        }
        if rv == SUCCESS {
          assert Stops(attempts, retryCount);
          break;
        }
      }
      retryCount := retryCount + 1;
    }
    RunByCode(attempts, made);
  }

  lemma StopsIffEndsAt(attempts: nat -> Attempt, k: nat)
    requires Reached(attempts, k)
    ensures Stops(attempts, k) <==> EndsAt(attempts, k)
  {
    hide Handle, Ends, Digit;
    if attempts(k).macKnown && attempts(k).fetched {
      HandledByCode(attempts(k), k);
    } else if attempts(k).macKnown {
      FailedFetchEndsRunIff(attempts, k);
    }
  }

  lemma RunByCode(attempts: nat -> Attempt, made: nat)
    requires 1 <= made <= 26 && forall k: nat :: k < made <==> Reached(attempts, k)
    ensures forall k: nat :: k + 1 < made ==> !EndsAt(attempts, k)
    ensures made < 26 ==> EndsAt(attempts, made - 1)
    ensures var last, report := attempts(made - 1), ReportOf(attempts, made - 1);
            && (report.Some? <==> && last.macKnown && last.fetched && last.code !in {404, 429}
                                  && (Ends(last) || made == 26))
            && (report.Some? ==> Tells(report.value, last))
  {
    hide Handle, Ends, Digit, Tells, EndsAt;
    forall k: nat | k + 1 < made ensures !EndsAt(attempts, k) {
      assert Reached(attempts, k + 1);
      StopsIffEndsAt(attempts, k);
    }
    StopsIffEndsAt(attempts, made - 1);
    assert made < 26 ==> !Reached(attempts, made);
    HandledByCode(attempts(made - 1), made - 1);
  }

  /** An attempt that sends a report is the last one. */
  lemma ReportEndsTheRun(attempts: nat -> Attempt, k: nat)
    requires Reached(attempts, k) && ReportOf(attempts, k) != None
    ensures !Reached(attempts, k + 1)
  {
    if Handle(attempts(k), k).rv == SUCCESS {
      assert Stops(attempts, k);
    }
  }

  lemma NoReportBefore(attempts: nat -> Attempt, k: nat)
    requires Reached(attempts, k + 1)
    ensures ReportOf(attempts, k) == None
  {
    assert !Stops(attempts, k);
  }

  /** At most one report is sent, whatever the attempts meet. */
  lemma AtMostOneReport(attempts: nat -> Attempt, j: nat, k: nat)
    requires Reached(attempts, j) && Reached(attempts, k)
    requires ReportOf(attempts, j) != None && ReportOf(attempts, k) != None
    ensures j == k
  {
    if j < k {
      ReachedBefore(attempts, j + 1, k);
      ReportEndsTheRun(attempts, j);
    } else if k < j {
      ReachedBefore(attempts, k + 1, j);
      ReportEndsTheRun(attempts, k);
    }
  }

  lemma ReachedBefore(attempts: nat -> Attempt, j: nat, k: nat)
    requires j <= k && Reached(attempts, k)
    ensures Reached(attempts, j)
  {
  }

  lemma {:induction false} UnansweredKeepsRv(attempts: nat -> Attempt, k: nat)
    requires forall j: nat :: j < k ==> !Answered(attempts(j))
    ensures Rv(attempts, k) == SUCCESS
  {
    if k > 0 {
      UnansweredKeepsRv(attempts, k - 1);
    }
  }

  lemma {:induction false} AnsweredLeavesError(attempts: nat -> Attempt, k: nat, j: nat)
    requires Reached(attempts, k) && j < k && Answered(attempts(j))
    ensures Rv(attempts, k) == ERR
  {
    if j == k - 1 {
      assert !Stops(attempts, j);
    } else {
      AnsweredLeavesError(attempts, k - 1, j);
      if Answered(attempts(k - 1)) {
        assert !Stops(attempts, k - 1);
      }
    }
  }

  /** The retry promise fails for a fetch that does not get through: it ends the
      run, without a report, exactly when no response has been handled before,
      because rv starts out as SUCCESS. */
  lemma FailedFetchEndsRunIff(attempts: nat -> Attempt, k: nat)
    requires Reached(attempts, k) && attempts(k).macKnown && !attempts(k).fetched
    ensures ReportOf(attempts, k) == None
    ensures Stops(attempts, k) <==> forall j: nat :: j < k ==> !Answered(attempts(j))
  {
    assert Rv(attempts, k + 1) == Rv(attempts, k);
    if j: nat :| j < k && Answered(attempts(j)) {
      AnsweredLeavesError(attempts, k, j);
    } else {
      UnansweredKeepsRv(attempts, k);
    }
  }

  /** After a response was handled, only a response can end the run early; the
      exact responses that do. */
  lemma ResponseEndsRunIff(attempts: nat -> Attempt, k: nat)
    requires Reached(attempts, k) && Answered(attempts(k))
    ensures var a := attempts(k);
            Stops(attempts, k)
            <==> a.code in {304, 204, 429} || (a.code == 200 && a.hasData)
                 || (a.code !in {403, 404} && Digit(a) == 4)
  {
    HandledByCode(attempts(k), k);
  }
}
