/** The bounded retry loop that `createNotification` and `updateNotification`
    (src/store/notificationStore.ts) run around the database write. A payload is a map
    from column names to values. The database is a function from the payload sent to
    its answer, and the answer's error message is already classified. */
module NotificationRetry {
  import opened JsBuiltins
  import opened NotificationRows

  type Payload = map<string, string>

  const TypeColumn: string := "type"

  /** The types the `notifications_type_check` constraint may accept. */
  const AllowedTypes: seq<string> := ["info", "promotion", "urgent", "update", "package_created",
                                      "status_updated", "package_arrived", "new_message"]

  /** What a rejected write says: a missing column (named in the message), a violated
      type check, or anything else. */
  datatype Failure = MissingColumn(column: string) | TypeCheckViolation | OtherFailure

  datatype Response = Accepted(row: Notification) | Rejected(message: string, failure: Failure)

  /** How the loop ends: with the saved row, or by throwing an error with its message. */
  datatype Outcome = Saved(row: Notification) | Threw(message: string)

  const MaxAttempts: nat := 5

  /** `payload.type`, when present. */
  predicate HasType(p: Payload, t: string) {
    TypeColumn in p && p[TypeColumn] == t
  }

  /** `[payload.type, "info", "new_message"].filter(Boolean)`. */
  function InitialTryOrder(p: Payload): (order: seq<string>)
    ensures |order| >= 2 && order[|order| - 2..] == ["info", "new_message"]
    ensures TypeColumn in p && p[TypeColumn] != "" ==> order[0] == p[TypeColumn]
  {
    (if TypeColumn in p && p[TypeColumn] != "" then [p[TypeColumn]] else []) + ["info", "new_message"]
  }

  /** How the next candidate type is taken from the try order. `ShiftOnce` is the code:
      one `shift()`, whatever it yields. `SkipUnusable` passes over candidates that are
      empty, equal to the current type or not allowed. */
  datatype Policy = ShiftOnce | SkipUnusable

  predicate Usable(p: Payload, t: string) {
    t != "" && !HasType(p, t) && t in AllowedTypes
  }

  /** The candidate and the rest of the try order; "" stands for `undefined`. */
  function NextCandidate(policy: Policy, order: seq<string>, p: Payload): (r: (string, seq<string>))
    ensures |r.1| <= |order|
    ensures policy == SkipUnusable && r.0 != "" ==> Usable(p, r.0)
  {
    if order == [] then ("", [])
    else if policy == ShiftOnce || Usable(p, order[0]) then (order[0], order[1..])
    else NextCandidate(policy, order[1..], p)
  }

  /** One retry: the next payload the loop sends after a rejection. A missing column is
      deleted; a violated type check switches to an allowed type other than the
      current one. Nothing else is retried. */
  predicate RetryStep(answer: Response, sent: Payload, next: Payload) {
    && answer.Rejected?
    && ((answer.failure.MissingColumn? && answer.failure.column != "" && next == sent - {answer.failure.column})
        || (answer.failure.TypeCheckViolation? && TypeColumn in next && Usable(sent, next[TypeColumn])
            && next == sent[TypeColumn := next[TypeColumn]]))
  }

  /** The loop's answer to one rejection: the payload and try order of the retry, or
      `None` when the error is to be thrown. */
  function Retry(policy: Policy, answer: Response, p: Payload, order: seq<string>): (r: Option<(Payload, seq<string>)>)
    ensures r.Some? ==> RetryStep(answer, p, r.value.0)
    ensures answer.Accepted? ==> r.None?
    ensures answer.Rejected? && answer.failure.MissingColumn? && answer.failure.column != "" ==> r.Some?
    ensures answer.Rejected? && answer.failure.OtherFailure? ==> r.None?
  {
    if answer.Accepted? then None
    else if answer.failure.MissingColumn? && answer.failure.column != "" then
      Some((p - {answer.failure.column}, order))
    else if answer.failure.TypeCheckViolation? then
      var (next, remaining) := NextCandidate(policy, order, p);
      if Usable(p, next) then
        assert p[TypeColumn := next][TypeColumn] == next;
        Some((p[TypeColumn := next], remaining))
      else None
    else None
  }

  /** The outcome an answer settles the loop with. */
  function Settle(answer: Response): (o: Outcome)
    ensures answer.Accepted? ==> o == Saved(answer.row)
    ensures answer.Rejected? ==> o == Threw(answer.message)
  {
    match answer
    case Accepted(row) => Saved(row)
    case Rejected(message, _) => Threw(message)
  }

  /** The loop from attempt number `attempt` on: its outcome and the payloads it sends,
      in order. */
  function Attempts(policy: Policy, server: Payload -> Response, p: Payload, order: seq<string>, attempt: nat)
    : (r: (Outcome, seq<Payload>))
    requires attempt < MaxAttempts
    decreases MaxAttempts - attempt
  {
    var answer := server(p);
    var retry := Retry(policy, answer, p, order);
    if retry.Some? && attempt + 1 < MaxAttempts then
      var rest := Attempts(policy, server, retry.value.0, retry.value.1, attempt + 1);
      (rest.0, [p] + rest.1)
    else (Settle(answer), [p])
  }

  /** What the loop does, whatever the database answers: it sends between one and five
      payloads, starting with the caller's; each later one is a retry step from the one
      before, which was rejected; the outcome is the last answer, saved or thrown; and
      a missing column is thrown only once the attempts are used up. */
  lemma {:induction false} AttemptsShape(policy: Policy, server: Payload -> Response, p: Payload,
                                         order: seq<string>, attempt: nat)
    requires attempt < MaxAttempts
    ensures var (outcome, sent) := Attempts(policy, server, p, order, attempt);
      && 1 <= |sent| <= MaxAttempts - attempt
      && sent[0] == p
      && (forall i | 0 <= i < |sent| - 1 :: RetryStep(server(sent[i]), sent[i], sent[i + 1]))
      && (server(sent[|sent| - 1]).Accepted? ==> outcome == Saved(server(sent[|sent| - 1]).row))
      && (server(sent[|sent| - 1]).Rejected? ==> outcome == Threw(server(sent[|sent| - 1]).message))
      && ((server(sent[|sent| - 1]).Rejected? && server(sent[|sent| - 1]).failure.MissingColumn?
           && server(sent[|sent| - 1]).failure.column != "") ==> |sent| == MaxAttempts - attempt)
    decreases MaxAttempts - attempt
  {
    var retry := Retry(policy, server(p), p, order);
    if retry.Some? && attempt + 1 < MaxAttempts {
      AttemptsShape(policy, server, retry.value.0, retry.value.1, attempt + 1);
    }
  }

  /** Any failure other than a missing column or a type check is thrown at once. */
  lemma OtherFailureRethrown(policy: Policy, server: Payload -> Response, p: Payload, order: seq<string>, message: string)
    requires server(p) == Rejected(message, OtherFailure)
    ensures Attempts(policy, server, p, order, 0) == (Threw(message), [p])
  {
  }

  /** The code as written: the try order starts with the payload's own type, so when
      the first answer is a type-check violation the shift yields that same type, finds
      it equal to the current one and throws; no fallback type is sent. (After a
      missing-column retry has deleted `type`, a later violation can still fall back.) */
  lemma TypeFallbackNeverTaken(server: Payload -> Response, p: Payload, message: string)
    requires TypeColumn in p && p[TypeColumn] != ""
    requires server(p) == Rejected(message, TypeCheckViolation)
    ensures Attempts(ShiftOnce, server, p, InitialTryOrder(p), 0) == (Threw(message), [p])
  {
    assert HasType(p, InitialTryOrder(p)[0]);
  }

  /** The fallback does fire from a typed payload once a missing-column retry has
      deleted `type`: the next violation shifts the old type back in, and a further
      one switches to "info". */
  lemma TypeFallbackAfterDeletion(server: Payload -> Response, p: Payload, m1: string, m2: string,
                                  m3: string, row: Notification)
    requires TypeColumn in p && p[TypeColumn] in AllowedTypes && p[TypeColumn] != "info"
    requires server(p) == Rejected(m1, MissingColumn(TypeColumn))
    requires server(p - {TypeColumn}) == Rejected(m2, TypeCheckViolation)
    requires server((p - {TypeColumn})[TypeColumn := p[TypeColumn]]) == Rejected(m3, TypeCheckViolation)
    requires server((p - {TypeColumn})[TypeColumn := "info"]) == Accepted(row)
    ensures Attempts(ShiftOnce, server, p, InitialTryOrder(p), 0)
      == (Saved(row), [p, p - {TypeColumn}, (p - {TypeColumn})[TypeColumn := p[TypeColumn]],
                       (p - {TypeColumn})[TypeColumn := "info"]])
  {
    var t := p[TypeColumn];
    var q := p - {TypeColumn};
    var r := q[TypeColumn := t];
    var s := q[TypeColumn := "info"];
    assert r[TypeColumn := "info"] == s;
    var order := InitialTryOrder(p);
    assert order == [t, "info", "new_message"];
    assert Retry(ShiftOnce, server(p), p, order) == Some((q, order));
    assert NextCandidate(ShiftOnce, order, q) == (t, ["info", "new_message"]);
    assert Retry(ShiftOnce, server(q), q, order) == Some((r, ["info", "new_message"]));
    assert NextCandidate(ShiftOnce, ["info", "new_message"], r) == ("info", ["new_message"]);
    assert Retry(ShiftOnce, server(r), r, ["info", "new_message"]) == Some((s, ["new_message"]));
    var a3 := Attempts(ShiftOnce, server, s, ["new_message"], 3);
    assert a3 == (Saved(row), [s]);
    var a2 := Attempts(ShiftOnce, server, r, ["info", "new_message"], 2);
    assert a2 == (a3.0, [r] + a3.1);
    var a1 := Attempts(ShiftOnce, server, q, order, 1);
    assert a1 == (a2.0, [q] + a2.1);
    assert Attempts(ShiftOnce, server, p, order, 0) == (a1.0, [p] + a1.1);
    assert [p] + ([q] + ([r] + [s])) == [p, q, r, s];
  }

  /** Without a type in the payload (or with an empty one) the fallback does work,
      "info" first. */
  lemma TypeFallbackWithoutType(server: Payload -> Response, p: Payload, message: string)
    requires !(TypeColumn in p && p[TypeColumn] != "")
    requires server(p) == Rejected(message, TypeCheckViolation)
    ensures SecondSent(ShiftOnce, server, p, InitialTryOrder(p), p[TypeColumn := "info"])
  {
    var order := InitialTryOrder(p);
    InfoIsUsable(p);
    var infoOnward := order[|order| - 2..];
    assert infoOnward[0] == "info";
    assert order == infoOnward;
    assert NextCandidate(ShiftOnce, order, p) == ("info", infoOnward[1..]);
    var retried := p[TypeColumn := "info"];
    assert Retry(ShiftOnce, server(p), p, order) == Some((retried, infoOnward[1..]));
    SecondPayload(ShiftOnce, server, p, order, retried, infoOnward[1..]);
  }

  lemma InfoIsUsable(p: Payload)
    requires !HasType(p, "info")
    ensures Usable(p, "info")
  {
    assert AllowedTypes[0] == "info";
  }

  /** Passing over unusable candidates, a type-check violation on any type other than
      "info" is retried with "info". */
  lemma SkippingFallsBackToInfo(server: Payload -> Response, p: Payload, message: string)
    requires !HasType(p, "info")
    requires server(p) == Rejected(message, TypeCheckViolation)
    ensures SecondSent(SkipUnusable, server, p, InitialTryOrder(p), p[TypeColumn := "info"])
  {
    var order := InitialTryOrder(p);
    InfoIsUsable(p);
    var infoOnward := order[|order| - 2..];
    assert infoOnward[0] == "info";
    if TypeColumn in p && p[TypeColumn] != "" {
      assert !Usable(p, order[0]);
      assert order[1..] == infoOnward;
    } else {
      assert order == infoOnward;
    }
    assert NextCandidate(SkipUnusable, order, p) == ("info", infoOnward[1..]);
    var retried := p[TypeColumn := "info"];
    assert Retry(SkipUnusable, server(p), p, order) == Some((retried, infoOnward[1..]));
    SecondPayload(SkipUnusable, server, p, order, retried, infoOnward[1..]);
  }

  /** The loop sends at least two payloads, the second being `next`. */
  predicate SecondSent(policy: Policy, server: Payload -> Response, p: Payload, order: seq<string>, next: Payload) {
    var sent := Attempts(policy, server, p, order, 0).1;
    |sent| >= 2 && sent[1] == next
  }

  /** A first rejection that the loop retries makes the retried payload the second one
      sent. */
  lemma SecondPayload(policy: Policy, server: Payload -> Response, p: Payload, order: seq<string>,
                      next: Payload, remaining: seq<string>)
    requires Retry(policy, server(p), p, order) == Some((next, remaining))
    ensures SecondSent(policy, server, p, order, next)
  {
    AttemptsShape(policy, server, next, remaining, 1);
    var rest := Attempts(policy, server, next, remaining, 1);
    assert Attempts(policy, server, p, order, 0).1 == [p] + rest.1;
  }

  /** One retried rejection keeps the loop on course: what is left to send after `sent`
      and `p` is the loop from the retried payload on, or nothing once the attempts are
      used up, when the last answer settles it. */
  lemma AttemptsStep(policy: Policy, server: Payload -> Response, p: Payload, order: seq<string>, attempt: nat,
                     next: Payload, remaining: seq<string>, sent: seq<Payload>, goal: (Outcome, seq<Payload>))
    requires attempt < MaxAttempts
    requires Retry(policy, server(p), p, order) == Some((next, remaining))
    requires var rest := Attempts(policy, server, p, order, attempt); goal.0 == rest.0 && goal.1 == sent + rest.1
    ensures attempt + 1 < MaxAttempts ==>
      var rest := Attempts(policy, server, next, remaining, attempt + 1);
      goal.0 == rest.0 && goal.1 == (sent + [p]) + rest.1
    ensures attempt + 1 == MaxAttempts ==> goal == (Settle(server(p)), sent + [p])
  {
    if attempt + 1 < MaxAttempts {
      var rest := Attempts(policy, server, next, remaining, attempt + 1);
      assert sent + ([p] + rest.1) == (sent + [p]) + rest.1;
    }
  }

  /** The body of one failed iteration: delete the column the error names, or `shift()`
      the next candidate and switch to it when it is set, differs from the current type
      and is allowed; `None` when the error is to be thrown. */
  method HandleRejection(res: Response, p: Payload, tryOrder: seq<string>)
    returns (retry: Option<(Payload, seq<string>)>)
    requires res.Rejected?
    ensures retry == Retry(ShiftOnce, res, p, tryOrder)
  {
    if res.failure.MissingColumn? && res.failure.column != "" {
      return Some((p - {res.failure.column}, tryOrder));
    }
    if res.failure.TypeCheckViolation? {
      var next := if tryOrder == [] then "" else tryOrder[0];
      var remaining := if tryOrder == [] then [] else tryOrder[1..];
      assert NextCandidate(ShiftOnce, tryOrder, p) == (next, remaining);
      if next != "" && !HasType(p, next) && next in AllowedTypes {
        return Some((p[TypeColumn := next], remaining));
      }
    }
    return None;
  }

  /** The loop as the store runs it: a request per iteration, `break` on success,
      `continue` after deleting a column or switching the type, a throw otherwise, and a
      throw of the last error once five requests have failed. */
  method RetryLoop(server: Payload -> Response, payload: Payload, order: seq<string>)
    returns (outcome: Outcome, sent: seq<Payload>)
    ensures (outcome, sent) == Attempts(ShiftOnce, server, payload, order, 0)
  {
    ghost var goal := Attempts(ShiftOnce, server, payload, order, 0);
    var p := payload;
    var attempt := 0;
    var tryOrder := order;
    var error := "";
    sent := [];
    while attempt < MaxAttempts
      invariant 0 <= attempt <= MaxAttempts
      invariant attempt < MaxAttempts ==>
        var rest := Attempts(ShiftOnce, server, p, tryOrder, attempt); goal.0 == rest.0 && goal.1 == sent + rest.1
      invariant attempt == MaxAttempts ==> goal == (Threw(error), sent)
      decreases MaxAttempts - attempt
    {
      var res := server(p);
      if res.Accepted? {
        return Saved(res.row), sent + [p];
      }
      error := res.message;
      var retry := HandleRejection(res, p, tryOrder);
      if retry.None? {
        return Threw(error), sent + [p];
      }
      AttemptsStep(ShiftOnce, server, p, tryOrder, attempt, retry.value.0, retry.value.1, sent, goal);
      sent := sent + [p];
      p, tryOrder := retry.value.0, retry.value.1;
      attempt := attempt + 1;
    }
    return Threw(error), sent;
  }

  /** The retried write of `createNotification` and `updateNotification`: the try order
      built from the payload, then the loop. */
  method WriteWithRetry(server: Payload -> Response, payload: Payload) returns (outcome: Outcome, sent: seq<Payload>)
    ensures (outcome, sent) == Attempts(ShiftOnce, server, payload, InitialTryOrder(payload), 0)
  {
    var tryOrder := InitialTryOrder(payload);
    outcome, sent := RetryLoop(server, payload, tryOrder);
  }
}
