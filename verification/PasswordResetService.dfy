/** The service as it is called: the verification rows of every email and the password of every credential account. */
module PasswordResetService {
  import opened Prelude
  import opened PasswordResetPolicy
  import opened PasswordReset

  datatype RequestReply = Accepted | TooManyRequests(retryAfterSeconds: int) | MailUnavailable

  datatype ResetReply = InvalidCode | SignedIn

  function RowsOf(table: map<string, seq<Row>>, email: string): seq<Row> {
    if email in table then table[email] else []
  }

  class PasswordResetService {
    var verification: map<string, seq<Row>>
    var passwords: map<string, string>

    /** No email's rows break the invariant of the table at `clock`. */
    ghost predicate Valid(clock: int)
      reads this
    {
      forall email :: email in verification ==> Inv(verification[email], clock)
    }

    constructor (accounts: map<string, string>)
      ensures verification == map[] && passwords == accounts
      ensures forall clock :: Valid(clock)
    {
      verification := map[];
      passwords := accounts;
    }

    /** Sends a code if the email has an account and nothing throttles. An unknown email is accepted all the same,
        and a code whose mail could not be sent stays issued. */
    method Request(email: string, now: int, code: string, mailSent: bool, ghost clock: int) returns (reply: RequestReply)
      requires Valid(clock) && clock <= now
      modifies this`verification
      ensures Valid(now)
      ensures var rows := RowsOf(old(verification), email);
              var spec := SpecRequestOutcome(Abstract(rows), email in passwords, now);
              && (spec != Issued ==> verification == old(verification))
              && (spec == Issued ==> verification == old(verification)[email := Retired(rows, now) + [Fresh(now, code)]])
              && Abstract(RowsOf(verification, email)) == SpecRequested(Abstract(rows), email in passwords, now, code)
              && reply == match spec
                          case UnknownEmail => Accepted
                          case Throttled(t) => TooManyRequests(t.retryAfterSeconds)
                          case Issued => if mailSent then Accepted else MailUnavailable
    {
      var rows := RowsOf(verification, email);
      StillValid(clock, now);
      RequestRefines(rows, clock, email in passwords, now, code);
      if email !in passwords { return Accepted; }
      var throttle := ThrottleFor(Recent(Created(rows), now), now);
      if throttle.Some? { return TooManyRequests(throttle.value.retryAfterSeconds); }
      verification := verification[email := Retired(rows, now) + [Fresh(now, code)]];
      if !mailSent { return MailUnavailable; }
      return Accepted;
    }

    /** Trades a code for a new password: a password changes exactly when the live slot redeems the guess,
        and then the code is spent with it. */
    method Reset(email: string, now: int, guess: string, password: string, ghost clock: int) returns (reply: ResetReply)
      requires Valid(clock) && clock <= now
      modifies this
      ensures Valid(now)
      ensures var rows := RowsOf(old(verification), email);
              var known := email in old(passwords);
              var spec := SpecResetOutcome(Abstract(rows).slot, now, guess, known);
              && (reply == SignedIn <==> spec == Redeemed)
              && passwords == (if spec == Redeemed then old(passwords)[email := password] else old(passwords))
              && Abstract(RowsOf(verification, email)) == SpecReset(Abstract(rows), now, guess, known)
              && forall other :: other != email ==> RowsOf(verification, other) == RowsOf(old(verification), other)
    {
      var rows := RowsOf(verification, email);
      StillValid(clock, now);
      if rows == [] {
        ResetRefines(rows, clock, None, now, guess, email in passwords);
        return InvalidCode;
      }
      var pick := SelectNewest(rows);
      ResetRefines(rows, clock, Some(pick), now, guess, email in passwords);
      if RejectionFor(Some(rows[pick]), now).Some? { return InvalidCode; }
      if rows[pick].value != guess {
        verification := verification[email := rows[pick := rows[pick].(attempts := rows[pick].attempts + 1)]];
        return InvalidCode;
      }
      if email !in passwords { return InvalidCode; }
      verification := verification[email := rows[pick := rows[pick].(consumedAt := Some(now))]];
      passwords := passwords[email := password];
      return SignedIn;
    }

    /** `ORDER BY created_at DESC LIMIT 1`. */
    method SelectNewest(rows: seq<Row>) returns (pick: nat)
      requires rows != []
      ensures Picks(rows, Some(pick))
    {
      pick := 0;
      for i := 1 to |rows|
        invariant pick < i && forall j :: 0 <= j < i ==> rows[j].createdAt <= rows[pick].createdAt
      {
        if rows[i].createdAt > rows[pick].createdAt { pick := i; }
      }
    }

    lemma StillValid(clock: int, now: int)
      requires Valid(clock) && clock <= now
      ensures Valid(now)
    {
    }
  }
}
