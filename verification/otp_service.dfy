/**
 * The one-time-passcode store of `OtpService`: a table of OtpToken rows that issuance
 * supersedes and inserts into, verification consumes, and cleanup sweeps.
 * Random code generation and the e-mail sending are not part of this model: the code is
 * a parameter in 100000..999999 and the e-mail is left out.
 */
module OtpService {
  import opened Base
  import Text

  /** The purpose a code was issued for. */
  datatype OtpType = Signup | Login | PasswordReset

  /** The purpose named by a request string, if it names one. */
  function ParseOtpType(s: string): (r: Option<OtpType>)
    ensures r == Some(Signup) <==> s == "SIGNUP"
    ensures r == Some(Login) <==> s == "LOGIN"
    ensures r == Some(PasswordReset) <==> s == "PASSWORD_RESET"
  {
    if s == "SIGNUP" then Some(Signup)
    else if s == "LOGIN" then Some(Login)
    else if s == "PASSWORD_RESET" then Some(PasswordReset)
    else None
  }

  /** One row of the OtpToken table; `expiresAt` is in milliseconds. */
  datatype OtpToken = OtpToken(
    email: string,
    token: string,
    kind: OtpType,
    expiresAt: int,
    used: bool,
    userId: Option<nat>)

  /** A code lives ten minutes. */
  const OtpLifetimeMs: int := 10 * 60 * 1000
  const MinCode: nat := 100000
  const MaxCode: nat := 999999

  predicate SamePair(row: OtpToken, email: string, kind: OtpType) {
    row.email == email && row.kind == kind
  }

  /** The filter of verification's lookup: same e-mail, code and purpose, unused, unexpired. */
  predicate Matches(row: OtpToken, email: string, otp: string, kind: OtpType, now: int) {
    SamePair(row, email, kind) && row.token == otp && !row.used && row.expiresAt > now
  }

  /** Issuance's first step: every unused row of the pair becomes used, nothing else changes. */
  function Invalidate(rows: seq<OtpToken>, email: string, kind: OtpType): (r: seq<OtpToken>)
  {
    seq(|rows|, i requires 0 <= i < |rows| =>
      if SamePair(rows[i], email, kind) && !rows[i].used then rows[i].(used := true) else rows[i])
  }

  /** The table after issuing `otp` for the pair at time `now`. */
  function Issue(rows: seq<OtpToken>, email: string, kind: OtpType, otp: string, now: int, userId: Option<nat>): seq<OtpToken>
  {
    Invalidate(rows, email, kind) + [OtpToken(email, otp, kind, now + OtpLifetimeMs, false, userId)]
  }

  /** The index of the first row verification would accept, if any. */
  function FirstMatch(rows: seq<OtpToken>, email: string, otp: string, kind: OtpType, now: int): (r: Option<nat>)
    ensures r.Some? ==> r.value < |rows| && Matches(rows[r.value], email, otp, kind, now)
    ensures r.Some? ==> forall j :: 0 <= j < r.value ==> !Matches(rows[j], email, otp, kind, now)
    ensures r.None? ==> forall j :: 0 <= j < |rows| ==> !Matches(rows[j], email, otp, kind, now)
  {
    if rows == [] then None
    else if Matches(rows[0], email, otp, kind, now) then Some(0)
    else
      match FirstMatch(rows[1..], email, otp, kind, now)
      case None => None
      case Some(k) => Some(k + 1)
  }

  /** The table after the row at `i` is consumed. */
  function Consume(rows: seq<OtpToken>, i: nat): seq<OtpToken>
    requires i < |rows|
  {
    rows[i := rows[i].(used := true)]
  }

  /** The rows cleanup keeps: those whose expiry is not before `now`, in order. */
  function Unexpired(rows: seq<OtpToken>, now: int): seq<OtpToken>
  {
    if rows == [] then []
    else if rows[0].expiresAt < now then Unexpired(rows[1..], now)
    else [rows[0]] + Unexpired(rows[1..], now)
  }

  /** The number of unused rows of the pair. */
  function UnusedCount(rows: seq<OtpToken>, email: string, kind: OtpType): nat
  {
    if rows == [] then 0
    else (if SamePair(rows[0], email, kind) && !rows[0].used then 1 else 0) + UnusedCount(rows[1..], email, kind)
  }

  /** The table's invariant: at most one unused code per (e-mail, purpose). */
  ghost predicate AtMostOneUnused(rows: seq<OtpToken>) {
    forall email: string, kind: OtpType {:trigger UnusedCount(rows, email, kind)} ::
      UnusedCount(rows, email, kind) <= 1
  }

  // ---------------------------------------------------------------------------
  // Counting lemmas

  lemma {:induction false} UnusedCountAppend(a: seq<OtpToken>, b: seq<OtpToken>, email: string, kind: OtpType)
    ensures UnusedCount(a + b, email, kind) == UnusedCount(a, email, kind) + UnusedCount(b, email, kind)
  {
    if a != [] {
      assert (a + b)[1..] == a[1..] + b;
      UnusedCountAppend(a[1..], b, email, kind);
    } else {
      assert a + b == b;
    }
  }

  /** An unused row of the pair at `i` is counted. */
  lemma {:induction false} UnusedCountPositive(rows: seq<OtpToken>, i: nat, email: string, kind: OtpType)
    requires i < |rows| && SamePair(rows[i], email, kind) && !rows[i].used
    ensures UnusedCount(rows, email, kind) >= 1
  {
    if i > 0 {
      UnusedCountPositive(rows[1..], i - 1, email, kind);
    }
  }

  /** Two distinct unused rows of the pair are both counted. */
  lemma {:induction false} UnusedCountTwo(rows: seq<OtpToken>, i: nat, j: nat, email: string, kind: OtpType)
    requires i < j < |rows|
    requires SamePair(rows[i], email, kind) && !rows[i].used
    requires SamePair(rows[j], email, kind) && !rows[j].used
    ensures UnusedCount(rows, email, kind) >= 2
  {
    if i > 0 {
      UnusedCountTwo(rows[1..], i - 1, j - 1, email, kind);
    } else {
      UnusedCountPositive(rows[1..], j - 1, email, kind);
    }
  }

  /** Consuming an unused row lowers its pair's count by one and leaves every other pair's count alone. */
  lemma {:induction false} UnusedCountConsume(rows: seq<OtpToken>, i: nat, email: string, kind: OtpType)
    requires i < |rows| && !rows[i].used
    ensures SamePair(rows[i], email, kind) ==>
      UnusedCount(Consume(rows, i), email, kind) + 1 == UnusedCount(rows, email, kind)
    ensures !SamePair(rows[i], email, kind) ==>
      UnusedCount(Consume(rows, i), email, kind) == UnusedCount(rows, email, kind)
  {
    if i > 0 {
      assert Consume(rows, i)[1..] == Consume(rows[1..], i - 1);
      UnusedCountConsume(rows[1..], i - 1, email, kind);
    } else {
      assert Consume(rows, i)[1..] == rows[1..];
    }
  }

  /** After invalidation the pair has no unused row; other pairs keep their counts. */
  lemma {:induction false} UnusedCountInvalidate(rows: seq<OtpToken>, email: string, kind: OtpType, e: string, k: OtpType)
    ensures UnusedCount(Invalidate(rows, email, kind), e, k) ==
      if e == email && k == kind then 0 else UnusedCount(rows, e, k)
  {
    if rows != [] {
      assert Invalidate(rows, email, kind)[1..] == Invalidate(rows[1..], email, kind);
      UnusedCountInvalidate(rows[1..], email, kind, e, k);
    }
  }

  /** Cleanup never adds an unused row. */
  lemma {:induction false} UnusedCountUnexpired(rows: seq<OtpToken>, now: int, email: string, kind: OtpType)
    ensures UnusedCount(Unexpired(rows, now), email, kind) <= UnusedCount(rows, email, kind)
  {
    if rows != [] {
      UnusedCountUnexpired(rows[1..], now, email, kind);
      if rows[0].expiresAt >= now {
        assert ([rows[0]] + Unexpired(rows[1..], now))[1..] == Unexpired(rows[1..], now);
      }
    }
  }

  // ---------------------------------------------------------------------------
  // The properties of the store

  /** Issuance keeps the invariant. */
  lemma IssueKeepsInvariant(rows: seq<OtpToken>, email: string, kind: OtpType, otp: string, now: int, userId: Option<nat>)
    requires AtMostOneUnused(rows)
    ensures AtMostOneUnused(Issue(rows, email, kind, otp, now, userId))
  {
    var newRow := OtpToken(email, otp, kind, now + OtpLifetimeMs, false, userId);
    forall e: string, k: OtpType
      ensures UnusedCount(Issue(rows, email, kind, otp, now, userId), e, k) <= 1
    {
      UnusedCountAppend(Invalidate(rows, email, kind), [newRow], e, k);
      UnusedCountInvalidate(rows, email, kind, e, k);
      assert [newRow][1..] == [];
      assert UnusedCount(rows, e, k) <= 1;
    }
  }

  /**
   * Supersession: right after issuing `code` for the pair, the only row verification can
   * accept is the new one, and only for that exact code before it expires.
   */
  lemma IssueOnlyNewestMatches(rows: seq<OtpToken>, email: string, kind: OtpType, code: string, now: int,
                               userId: Option<nat>, otp: string, t: int)
    ensures FirstMatch(Issue(rows, email, kind, code, now, userId), email, otp, kind, t) ==
      if otp == code && t < now + OtpLifetimeMs then Some(|rows|) else None
  {
    var after := Issue(rows, email, kind, code, now, userId);
    assert forall j :: 0 <= j < |rows| ==> !Matches(after[j], email, otp, kind, t);
    assert after[|rows|] == OtpToken(email, code, kind, now + OtpLifetimeMs, false, userId);
    var r := FirstMatch(after, email, otp, kind, t);
    if otp == code && t < now + OtpLifetimeMs {
      assert Matches(after[|rows|], email, otp, kind, t);
      assert r.Some?;
    } else {
      assert !Matches(after[|rows|], email, otp, kind, t);
    }
  }

  /** Verification succeeds only on a matching row; on success exactly that row becomes used. */
  lemma ConsumeChangesOneRow(rows: seq<OtpToken>, email: string, otp: string, kind: OtpType, now: int)
    requires FirstMatch(rows, email, otp, kind, now).Some?
    ensures var i := FirstMatch(rows, email, otp, kind, now).value;
      && |Consume(rows, i)| == |rows|
      && Consume(rows, i)[i].used && !rows[i].used
      && (forall j :: 0 <= j < |rows| && j != i ==> Consume(rows, i)[j] == rows[j])
  {
  }

  /** Single use: under the invariant, the same verification right after a success fails. */
  lemma SecondVerificationFails(rows: seq<OtpToken>, email: string, otp: string, kind: OtpType, now: int, later: int)
    requires AtMostOneUnused(rows)
    requires FirstMatch(rows, email, otp, kind, now).Some?
    ensures FirstMatch(Consume(rows, FirstMatch(rows, email, otp, kind, now).value), email, otp, kind, later).None?
  {
    var i := FirstMatch(rows, email, otp, kind, now).value;
    var after := Consume(rows, i);
    assert UnusedCount(rows, email, kind) <= 1;
    UnusedCountConsume(rows, i, email, kind);
    if FirstMatch(after, email, otp, kind, later).Some? {
      var j := FirstMatch(after, email, otp, kind, later).value;
      UnusedCountPositive(after, j, email, kind);
      assert false;
    }
  }

  /** Under the invariant at most one row can match a verification. */
  lemma MatchIsUnique(rows: seq<OtpToken>, email: string, otp: string, kind: OtpType, now: int, i: nat, j: nat)
    requires AtMostOneUnused(rows)
    requires i < |rows| && j < |rows|
    requires Matches(rows[i], email, otp, kind, now) && Matches(rows[j], email, otp, kind, now)
    ensures i == j
  {
    assert UnusedCount(rows, email, kind) <= 1;
    if i < j {
      UnusedCountTwo(rows, i, j, email, kind);
    } else if j < i {
      UnusedCountTwo(rows, j, i, email, kind);
    }
  }

  /** Consuming a row keeps the invariant. */
  lemma ConsumeKeepsInvariant(rows: seq<OtpToken>, i: nat)
    requires AtMostOneUnused(rows)
    requires i < |rows| && !rows[i].used
    ensures AtMostOneUnused(Consume(rows, i))
  {
    forall e: string, k: OtpType ensures UnusedCount(Consume(rows, i), e, k) <= 1 {
      assert UnusedCount(rows, e, k) <= 1;
      UnusedCountConsume(rows, i, e, k);
    }
  }

  /** Cleanup keeps the invariant. */
  lemma CleanupKeepsInvariant(rows: seq<OtpToken>, now: int)
    requires AtMostOneUnused(rows)
    ensures AtMostOneUnused(Unexpired(rows, now))
  {
    forall e: string, k: OtpType ensures UnusedCount(Unexpired(rows, now), e, k) <= 1 {
      assert UnusedCount(rows, e, k) <= 1;
      UnusedCountUnexpired(rows, now, e, k);
    }
  }

  /** Cleanup deletes exactly the rows that expired strictly before `now`. */
  lemma {:induction false} CleanupExact(rows: seq<OtpToken>, now: int, row: OtpToken)
    ensures row in Unexpired(rows, now) <==> row in rows && row.expiresAt >= now
  {
    if rows != [] {
      CleanupExact(rows[1..], now, row);
      assert rows == [rows[0]] + rows[1..];
    }
  }

  /**
   * Cleanup never changes what a later verification decides: the rows it deletes could
   * no longer be accepted, so the same row (if any) is found before and after.
   */
  lemma {:induction false} CleanupKeepsVerification(rows: seq<OtpToken>, now: int, email: string, otp: string,
                                                    kind: OtpType, t: int)
    requires t >= now
    ensures FirstMatch(Unexpired(rows, now), email, otp, kind, t).Some? <==> FirstMatch(rows, email, otp, kind, t).Some?
    ensures FirstMatch(rows, email, otp, kind, t).Some? ==>
      Unexpired(rows, now)[FirstMatch(Unexpired(rows, now), email, otp, kind, t).value] ==
      rows[FirstMatch(rows, email, otp, kind, t).value]
  {
    if rows != [] {
      CleanupKeepsVerification(rows[1..], now, email, otp, kind, t);
      if rows[0].expiresAt >= now {
        assert ([rows[0]] + Unexpired(rows[1..], now))[1..] == Unexpired(rows[1..], now);
      }
    }
  }

  /** A row expiring exactly at `now` survives cleanup at `now` and yet fails verification at `now`. */
  lemma ExpiryBoundary(rows: seq<OtpToken>, now: int, i: nat)
    requires i < |rows| && rows[i].expiresAt == now
    ensures rows[i] in Unexpired(rows, now)
    ensures !Matches(rows[i], rows[i].email, rows[i].token, rows[i].kind, now)
  {
    CleanupExact(rows, now, rows[i]);
  }

  /** Every issued code is six decimal digits without a leading zero. */
  lemma IssuedCodeIsSixDigits(code: nat)
    requires MinCode <= code <= MaxCode
    ensures |Text.DecimalString(code)| == 6
    ensures Text.DecimalString(code)[0] != '0'
    ensures forall i :: 0 <= i < 6 ==> Text.IsDigit(Text.DecimalString(code)[i])
  {
    assert Text.Pow10(5) == 100000 && Text.Pow10(6) == 1000000 by {
      assert Text.Pow10(1) == 10;
      assert Text.Pow10(2) == 100;
      assert Text.Pow10(3) == 1000;
      assert Text.Pow10(4) == 10000;
    }
    Text.DecimalLength(code, 6);
    Text.NoLeadingZero(code);
  }

  /**
   * A superseded code verifies again only if the new random code happens to be equal:
   * once `newCode` is issued, the string of any other code is rejected.
   */
  lemma SupersededCodeRejected(rows: seq<OtpToken>, email: string, kind: OtpType, oldCode: nat, newCode: nat,
                               now: int, userId: Option<nat>, t: int)
    requires oldCode != newCode
    ensures FirstMatch(Issue(rows, email, kind, Text.DecimalString(newCode), now, userId),
                       email, Text.DecimalString(oldCode), kind, t).None?
  {
    Text.DecimalStringInjective(oldCode, newCode);
    IssueOnlyNewestMatches(rows, email, kind, Text.DecimalString(newCode), now, userId, Text.DecimalString(oldCode), t);
  }

  /**
   * The lookup's filter as written, for a request body that no schema checked: the ORM
   * reads an undefined filter value as "no filter", so a missing e-mail or a missing code
   * drops that column from the comparison.
   */
  predicate MatchesAsWritten(row: OtpToken, email: Option<string>, otp: Option<string>, kind: OtpType, now: int) {
    && (email.Some? ==> row.email == email.value)
    && (otp.Some? ==> row.token == otp.value)
    && row.kind == kind && !row.used && row.expiresAt > now
  }

  /**
   * The lookup as written: the first row passing the as-written filter. With both the
   * e-mail and the code present it is the exact lookup `FirstMatch`.
   */
  function FirstMatchAsWritten(rows: seq<OtpToken>, email: Option<string>, otp: Option<string>, kind: OtpType, now: int)
    : (r: Option<nat>)
    ensures email.Some? && otp.Some? ==> r == FirstMatch(rows, email.value, otp.value, kind, now)
    ensures r.Some? ==> r.value < |rows| && MatchesAsWritten(rows[r.value], email, otp, kind, now)
    ensures r.None? ==> forall j :: 0 <= j < |rows| ==> !MatchesAsWritten(rows[j], email, otp, kind, now)
  {
    if rows == [] then None
    else if MatchesAsWritten(rows[0], email, otp, kind, now) then Some(0)
    else
      match FirstMatchAsWritten(rows[1..], email, otp, kind, now)
      case None => None
      case Some(k) => Some(k + 1)
  }

  /** Right after issuing, the fresh row is the last one and passes any filter it fits. */
  lemma IssuedRowPasses(rows: seq<OtpToken>, email: string, kind: OtpType, code: string, now: int,
                        userId: Option<nat>, t: int, requested: Option<string>, otp: Option<string>)
    requires now <= t < now + OtpLifetimeMs
    requires requested.Some? ==> requested.value == email
    requires otp.Some? ==> otp.value == code
    ensures FirstMatchAsWritten(Issue(rows, email, kind, code, now, userId), requested, otp, kind, t).Some?
  {
    var issued := Issue(rows, email, kind, code, now, userId);
    assert issued[|rows|] == OtpToken(email, code, kind, now + OtpLifetimeMs, false, userId);
    assert MatchesAsWritten(issued[|rows|], requested, otp, kind, t);
  }

  /**
   * The discrepancy of a missing code: right after a code is issued for the pair, a
   * lookup with the e-mail but no code finds a row, so the request is accepted without
   * knowing the code.
   */
  lemma MissingCodeAcceptedAsWritten(rows: seq<OtpToken>, email: string, kind: OtpType, code: string, now: int,
                                     userId: Option<nat>)
    ensures FirstMatchAsWritten(Issue(rows, email, kind, code, now, userId), Some(email), None, kind, now).Some?
  {
    IssuedRowPasses(rows, email, kind, code, now, userId, now, Some(email), None);
  }

  /**
   * The discrepancy of a missing e-mail: right after a code is issued to any account, a
   * lookup that names no e-mail but carries that code finds a row of that purpose and code,
   * which verification then consumes although the request never named its owner.
   */
  lemma MissingEmailAcceptedAsWritten(rows: seq<OtpToken>, email: string, kind: OtpType, code: string, now: int,
                                      userId: Option<nat>, t: int)
    requires now <= t < now + OtpLifetimeMs
    ensures
      var issued := Issue(rows, email, kind, code, now, userId);
      var r := FirstMatchAsWritten(issued, None, Some(code), kind, t);
      && r.Some?
      && issued[r.value].token == code && issued[r.value].kind == kind && !issued[r.value].used
  {
    IssuedRowPasses(rows, email, kind, code, now, userId, t, None, Some(code));
  }

  /**
   * The lookup the verify-otp handler performs once a request without an e-mail or a code
   * is turned away: such a request matches nothing, and a complete one is looked up as written.
   */
  function RequestMatch(rows: seq<OtpToken>, email: Option<string>, otp: Option<string>, kind: OtpType, now: int)
    : (r: Option<nat>)
    ensures r.Some? ==>
      email.Some? && otp.Some? && r.value < |rows| && Matches(rows[r.value], email.value, otp.value, kind, now)
    ensures r.None? && email.Some? && otp.Some? ==>
      forall j :: 0 <= j < |rows| ==> !Matches(rows[j], email.value, otp.value, kind, now)
    ensures email.Some? && otp.Some? ==> r == FirstMatchAsWritten(rows, email, otp, kind, now)
  {
    if email.None? || otp.None? then None else FirstMatch(rows, email.value, otp.value, kind, now)
  }

  /** The OTP table of `OtpService`. */
  class OtpStore {
    var tokens: seq<OtpToken>

    ghost predicate Valid()
      reads this
    {
      AtMostOneUnused(tokens)
    }

    constructor ()
      ensures Valid() && tokens == []
    {
      tokens := [];
    }

    /**
     * `generateAndSendOtp` without the random draw and the e-mail: supersede the pair's
     * unused codes, then insert the new code, expiring ten minutes from `now`.
     */
    method GenerateAndSendOtp(email: string, kind: OtpType, code: nat, now: int, userId: Option<nat>)
      returns (otp: string)
      requires Valid()
      requires MinCode <= code <= MaxCode
      modifies this
      ensures Valid()
      ensures otp == Text.DecimalString(code) && |otp| == 6
      ensures tokens == Issue(old(tokens), email, kind, otp, now, userId)
      ensures |tokens| == |old(tokens)| + 1
      ensures tokens[|tokens| - 1] == OtpToken(email, otp, kind, now + OtpLifetimeMs, false, userId)
      ensures forall i :: 0 <= i < |old(tokens)| && SamePair(old(tokens)[i], email, kind) ==>
        tokens[i] == old(tokens)[i].(used := true)
      ensures forall i :: 0 <= i < |old(tokens)| && !SamePair(old(tokens)[i], email, kind) ==>
        tokens[i] == old(tokens)[i]
    {
      otp := Text.DecimalString(code);
      IssuedCodeIsSixDigits(code);
      IssueKeepsInvariant(tokens, email, kind, otp, now, userId);
      tokens := Invalidate(tokens, email, kind);
      tokens := tokens + [OtpToken(email, otp, kind, now + OtpLifetimeMs, false, userId)];
    }

    /** `verifyOtp`: accept and consume an unused, unexpired exact match. */
    method VerifyOtp(email: string, otp: string, kind: OtpType, now: int) returns (ok: bool)
      requires Valid()
      modifies this
      ensures Valid()
      ensures ok <==> exists i :: 0 <= i < |old(tokens)| && Matches(old(tokens)[i], email, otp, kind, now)
      ensures ok ==> tokens == Consume(old(tokens), FirstMatch(old(tokens), email, otp, kind, now).value)
      ensures !ok ==> tokens == old(tokens)
    {
      var found := FirstMatch(tokens, email, otp, kind, now);
      if found.None? {
        return false;
      }
      ConsumeKeepsInvariant(tokens, found.value);
      tokens := Consume(tokens, found.value);
      ok := true;
    }

    /** `cleanupExpiredOtps`: delete the rows that expired before `now`. */
    method CleanupExpiredOtps(now: int)
      requires Valid()
      modifies this
      ensures Valid()
      ensures tokens == Unexpired(old(tokens), now)
    {
      CleanupKeepsInvariant(tokens, now);
      tokens := Unexpired(tokens, now);
    }
  }
}
