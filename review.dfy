/**
 * The dashboard's review bookkeeping. Each finding of a reviewed file is
 * identified by a text key built from the file's result id, the finding's
 * line and its message; the user marks findings accepted (resolved) or
 * rejected, and a finding is in at most one of the two sets.
 */
module Review {
  import opened Common
  import opened Report

  /** One reviewed file as the dashboard keeps it: its result id, as text, and its findings if it has any. */
  datatype ReviewResult = ReviewResult(id: string, errors: Option<seq<Finding>>)

  /** `result.errors ?? []`: the findings of a result, none when the key is missing. */
  function ErrorsOf(r: ReviewResult): seq<Finding>
  {
    if r.errors.Some? then r.errors.value else []
  }

  /** A template literal's rendering of a line number that may be undefined. */
  function LineText(line: Option<int>): string
  {
    if line.Some? then IntToString(line.value) else "undefined"
  }

  /** A template literal's rendering of a message that may be undefined. */
  function MessageText(message: Option<string>): string
  {
    if message.Some? then message.value else "undefined"
  }

  /** The key `${resultId}-${error.line}-${error.message}`. */
  function ErrorKey(resultId: string, error: Finding): string
  {
    resultId + "-" + LineText(error.line) + "-" + MessageText(error.message)
  }

  /** What `getErrorStatus` answers. */
  datatype ErrorStatus = Accepted | Rejected | Pending

  /** The `acceptedErrors` and `rejectedErrors` sets of keys. */
  class ReviewMarks {
    var accepted: set<string>
    var rejected: set<string>

    /** No key is both accepted and rejected. */
    predicate Valid()
      reads this
    {
      accepted * rejected == {}
    }

    constructor()
      ensures accepted == {} && rejected == {}
      ensures Valid()
    {
      accepted, rejected := {}, {};
    }

    /**
     * `getErrorStatus`: accepted wins over rejected; a key in neither set
     * is pending.
     */
    function Status(resultId: string, error: Finding): (s: ErrorStatus)
      reads this
      ensures s == Accepted <==> ErrorKey(resultId, error) in accepted
      ensures s == Rejected <==> ErrorKey(resultId, error) !in accepted && ErrorKey(resultId, error) in rejected
      ensures s == Pending <==> ErrorKey(resultId, error) !in accepted + rejected
    {
      var key := ErrorKey(resultId, error);
      if key in accepted then Accepted
      else if key in rejected then Rejected
      else Pending
    }

    /** `handleAcceptError`: the key joins the accepted set and leaves the rejected one. */
    method Accept(resultId: string, error: Finding)
      modifies this
      ensures accepted == old(accepted) + {ErrorKey(resultId, error)}
      ensures rejected == old(rejected) - {ErrorKey(resultId, error)}
      ensures old(Valid()) ==> Valid()
      ensures Status(resultId, error) == Accepted
    {
      var key := ErrorKey(resultId, error);
      accepted := accepted + {key};
      rejected := rejected - {key};
    }

    /** `handleRejectError`: the key joins the rejected set and leaves the accepted one. */
    method Reject(resultId: string, error: Finding)
      modifies this
      ensures rejected == old(rejected) + {ErrorKey(resultId, error)}
      ensures accepted == old(accepted) - {ErrorKey(resultId, error)}
      ensures old(Valid()) ==> Valid()
      ensures Status(resultId, error) == Rejected
    {
      var key := ErrorKey(resultId, error);
      rejected := rejected + {key};
      accepted := accepted - {key};
    }
  }
}
