/**
  The wire vocabulary of the lock daemon: protocol version, command and
  result codes, the request and response records, and the `String`
  renderings of the two enumerations (api/models.go).
 */
module Protocol {

  newtype uint8 = x: int | 0 <= x < 256

  /** Protocol version spoken by the daemon; copied into every response. */
  const VersionMajor: uint8 := 0
  const VersionMinor: uint8 := 1

  /** A command code as it travels on the wire: any byte, not only the named ones. */
  newtype LockCommand = x: int | 0 <= x < 256

  const InvalidCommand: LockCommand := 0
  const Peek: LockCommand := 1
  const Acquire: LockCommand := 2
  const Release: LockCommand := 3
  const Verify: LockCommand := 4

  /** A result code as it travels on the wire. */
  newtype LockCommandResult = x: int | 0 <= x < 256

  const InvalidResult: LockCommandResult := 0
  const Failed: LockCommandResult := 1
  const Success: LockCommandResult := 2
  const BadRequest: LockCommandResult := 3
  const InternalError: LockCommandResult := 4

  datatype LockRequest = LockRequest(
    versionMajor: uint8,
    versionMinor: uint8,
    command: LockCommand,
    lockName: string)

  /** A response embeds the whole request it answers. */
  datatype LockResponse = LockResponse(
    request: LockRequest,
    result: LockCommandResult,
    reason: string,
    isLocked: bool)

  /** The identity of the connection a request arrived on; only compared for equality. */
  datatype Session = Session(id: nat)

  // ---------------------------------------------------------------------------
  // Decimal rendering, as `%d` prints a uint8

  predicate IsDigits(s: string) {
    forall i | 0 <= i < |s| :: '0' <= s[i] <= '9'
  }

  function DigitChar(d: nat): (c: char)
    requires d < 10
  {
    (48 + d) as char
  }

  /** The number a string of decimal digits denotes. */
  function DecimalValue(s: string): nat
    requires IsDigits(s)
  {
    if s == [] then 0 else 10 * DecimalValue(s[..|s| - 1]) + (s[|s| - 1] as int - 48)
  }

  /** `n` in decimal, without leading zeros; reading it back gives `n`. */
  function Decimal(n: nat): (s: string)
    ensures |s| > 0 && IsDigits(s)
    ensures |s| == 1 || s[0] != '0'
    ensures DecimalValue(s) == n
  {
    if n < 10 then [DigitChar(n)]
    else
      var prefix := Decimal(n / 10);
      var s := prefix + [DigitChar(n % 10)];
      assert s[..|s| - 1] == prefix;
      s
  }

  // ---------------------------------------------------------------------------
  // String renderings

  const UnknownCommandPrefix := "UNKNOWN_LOCK_COMMAND("
  const UnknownResultPrefix := "UNKNOWN_LOCK_COMMAND_RESULT("

  function CommandString(c: LockCommand): string {
    if c == InvalidCommand then "INVALID_LOCK_COMMAND"
    else if c == Peek then "Peek"
    else if c == Acquire then "Acquire"
    else if c == Release then "Release"
    else if c == Verify then "Verify"
    else UnknownCommandPrefix + Decimal(c as nat) + ")"
  }

  function ResultString(r: LockCommandResult): string {
    if r == InvalidResult then "INVALID_LOCK_COMMAND_RESULT"
    else if r == Failed then "Failed"
    else if r == Success then "Success"
    else if r == BadRequest then "BadRequest"
    else if r == InternalError then "InternalError"
    else UnknownResultPrefix + Decimal(r as nat) + ")"
  }

  /** The text of a client-side error: the result's rendering, a colon, the reason. */
  function ErrorText(r: LockCommandResult, reason: string): string {
    ResultString(r) + ": " + reason
  }

  /** The digits inside `prefix + Decimal(n) + ")"` determine `n`. */
  lemma {:induction false} BracketedDecimalInjective(prefix: string, m: nat, n: nat)
    requires prefix + Decimal(m) + ")" == prefix + Decimal(n) + ")"
    ensures m == n
  {
    var a, b := prefix + Decimal(m) + ")", prefix + Decimal(n) + ")";
    assert a[|prefix|..|a| - 1] == Decimal(m);
    assert b[|prefix|..|b| - 1] == Decimal(n);
  }

  /** Distinct command codes render to distinct strings. */
  lemma CommandStringInjective(a: LockCommand, b: LockCommand)
    requires CommandString(a) == CommandString(b)
    ensures a == b
  {
    // the named renderings are distinct literals, none of them of the UNKNOWN form
    if a > Verify && b > Verify {
      BracketedDecimalInjective(UnknownCommandPrefix, a as nat, b as nat);
    }
  }

  /** Distinct result codes render to distinct strings. */
  lemma ResultStringInjective(a: LockCommandResult, b: LockCommandResult)
    requires ResultString(a) == ResultString(b)
    ensures a == b
  {
    if a > InternalError && b > InternalError {
      BracketedDecimalInjective(UnknownResultPrefix, a as nat, b as nat);
    }
  }

  /** The named codes render to their names, and every other code to its UNKNOWN form. */
  lemma CommandStringUnknown(c: LockCommand)
    ensures c > Verify <==> |CommandString(c)| > |UnknownCommandPrefix| && CommandString(c)[..|UnknownCommandPrefix|] == UnknownCommandPrefix
  {
  }

  lemma ResultStringUnknown(r: LockCommandResult)
    ensures r > InternalError <==> |ResultString(r)| > |UnknownResultPrefix| && ResultString(r)[..|UnknownResultPrefix|] == UnknownResultPrefix
  {
  }
}
