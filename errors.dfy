/** Go's `(value, error)` returns as a Result, and the errors the discovery
    core can report.  The core aggregates several sub-errors into one message
    written to a bytes.Buffer; here that message is a `Report` holding the
    header line and one labelled entry per failed step, in source order. */
module Errors {

  datatype Option<+T> = None | Some(value: T) {
    function GetOr(default: T): T {
      match this
      case Some(v) => v
      case None => default
    }
  }

  datatype Result<+T> = Ok(value: T) | Err(error: Error) {
    /** The error of a failed step, as the `err != nil` tests of the source see it. */
    function Failure(): Option<Error> {
      match this
      case Ok(_) => None
      case Err(e) => Some(e)
    }

    /** The value Go returns next to the error (`""`, `0`, ...) when the step failed. */
    function GetOr(default: T): T {
      match this
      case Ok(v) => v
      case Err(_) => default
    }
  }

  datatype Error =
    | InvalidKeySize(size: nat)        // aes.NewCipher: the key is not 16, 24 or 32 bytes long
    | NumSyntax                        // strconv.Atoi: invalid syntax (Go returns 0 beside it)
    | NumRange(clamped: int)           // strconv.Atoi: out of the 64-bit range (Go returns the clamped bound)
    | MarkerNotFound                   // no `//digits//` marker in a framed ciphertext
    | SeedFailed(cause: Error)         // "Error generating seed for rand: ..."
    | AppIpNotSet                      // the handler's AppIp is empty
    | AppPortNotSet                    // the handler's AppPort is empty
    | PortNotInt(cause: Error)         // "Error parsing port into int: ..."
    | ResponseNotBuilt(cause: Error)   // "Error building default encrypted discovery response. ..."
    | ConnectionFailed(cause: Error)   // "Error building a default response udp connection. ..."
    | SendFailed(cause: Error)         // "Error sending discovery response data..."
    | Report(header: string, entries: seq<Entry>)

  /** One line of an aggregated report: the step's name and its error. */
  datatype Entry = Entry(name: string, cause: Error)

  /** One step of an aggregating operation: its label and how it ended. */
  datatype Step = Step(name: string, failure: Option<Error>)

  ghost predicate NoneFailed(steps: seq<Step>) {
    forall i :: 0 <= i < |steps| ==> steps[i].failure.None?
  }

  /** The entries written to the report: the failed steps, in order. */
  function Failures(steps: seq<Step>): (r: seq<Entry>)
    ensures |r| <= |steps|
    ensures r == [] <==> NoneFailed(steps)
  {
    if steps == [] then []
    else
      var head := match steps[0].failure
                  case Some(e) => [Entry(steps[0].name, e)]
                  case None => [];
      head + Failures(steps[1..])
  }

  /** Every entry of a report comes from a step that failed with that error. */
  lemma {:induction false} FailuresComeFromSteps(steps: seq<Step>)
    ensures forall k :: 0 <= k < |Failures(steps)| ==>
              Step(Failures(steps)[k].name, Some(Failures(steps)[k].cause)) in steps
  {
    if steps != [] {
      var tail := Failures(steps[1..]);
      FailuresComeFromSteps(steps[1..]);
      assert forall k :: 0 <= k < |tail| ==> steps[1..][k] in steps;
    }
  }

  /** A report of six steps is empty exactly when all six succeeded. */
  lemma NoFailuresOfSix(a: Step, b: Step, c: Step, d: Step, e: Step, f: Step)
    ensures Failures([a, b, c, d, e, f]) == [] <==>
              && a.failure.None? && b.failure.None? && c.failure.None?
              && d.failure.None? && e.failure.None? && f.failure.None?
  {
    var steps := [a, b, c, d, e, f];
    assert steps[0] == a && steps[1] == b && steps[2] == c && steps[3] == d && steps[4] == e && steps[5] == f;
  }

  /** A report of four steps is empty exactly when all four succeeded. */
  lemma NoFailuresOfFour(a: Step, b: Step, c: Step, d: Step)
    ensures Failures([a, b, c, d]) == [] <==>
              a.failure.None? && b.failure.None? && c.failure.None? && d.failure.None?
  {
    var steps := [a, b, c, d];
    assert steps[0] == a && steps[1] == b && steps[2] == c && steps[3] == d;
  }

  /** 1 for a step that failed, 0 for one that succeeded. */
  function Failed(s: Step): nat {
    if s.failure.Some? then 1 else 0
  }

  /** A report of four steps has one entry per failed step. */
  lemma FailureCountOfFour(a: Step, b: Step, c: Step, d: Step)
    ensures |Failures([a, b, c, d])| == Failed(a) + Failed(b) + Failed(c) + Failed(d)
  {
    FailuresCons(a, [b, c, d]);
    FailuresCons(b, [c, d]);
    FailuresCons(c, [d]);
    FailuresCons(d, []);
    assert [a] + [b, c, d] == [a, b, c, d];
    assert [b] + [c, d] == [b, c, d];
    assert [c] + [d] == [c, d];
    assert [d] + [] == [d];
  }

  /** A report of six steps has one entry per failed step. */
  lemma FailureCountOfSix(a: Step, b: Step, c: Step, d: Step, e: Step, f: Step)
    ensures |Failures([a, b, c, d, e, f])|
            == Failed(a) + Failed(b) + Failed(c) + Failed(d) + Failed(e) + Failed(f)
  {
    FailuresCons(a, [b, c, d, e, f]);
    FailuresCons(b, [c, d, e, f]);
    FailureCountOfFour(c, d, e, f);
    assert [a] + [b, c, d, e, f] == [a, b, c, d, e, f];
    assert [b] + [c, d, e, f] == [b, c, d, e, f];
  }

  /** The report of a step followed by others: its own entry, if it failed,
      then theirs. */
  lemma FailuresCons(s: Step, rest: seq<Step>)
    ensures Failures([s] + rest) ==
              (if s.failure.Some? then [Entry(s.name, s.failure.value)] else []) + Failures(rest)
    ensures |Failures([s] + rest)| == Failed(s) + |Failures(rest)|
  {
    assert ([s] + rest)[1..] == rest;
  }

  /** A report of six failed steps lists all six, in order. */
  lemma AllFailedOfSix(a: Step, b: Step, c: Step, d: Step, e: Step, f: Step)
    requires a.failure.Some? && b.failure.Some? && c.failure.Some?
    requires d.failure.Some? && e.failure.Some? && f.failure.Some?
    ensures Failures([a, b, c, d, e, f]) ==
              [Entry(a.name, a.failure.value), Entry(b.name, b.failure.value), Entry(c.name, c.failure.value),
               Entry(d.name, d.failure.value), Entry(e.name, e.failure.value), Entry(f.name, f.failure.value)]
  {
    var steps := [a, b, c, d, e, f];
    FailuresOfFailedSteps(steps);
  }

  /** Failures of steps that all failed: every one is listed, in order. */
  lemma {:induction false} FailuresOfFailedSteps(steps: seq<Step>)
    requires forall i :: 0 <= i < |steps| ==> steps[i].failure.Some?
    ensures |Failures(steps)| == |steps|
    ensures forall k :: 0 <= k < |steps| ==>
              Failures(steps)[k] == Entry(steps[k].name, steps[k].failure.value)
  {
    if steps != [] {
      FailuresOfFailedSteps(steps[1..]);
    }
  }
}
