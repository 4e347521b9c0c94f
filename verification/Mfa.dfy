/** The second factor of one user: setting it up, confirming it, using it, switching it off.

    A hash is ideal: it remembers the text it was made from, and comparing compares that.  The cipher
    around the stored secret is left out.  Each use case is one step. */
module Mfa {
  import opened Options
  import opened Text
  import opened Base32
  import opened Totp
  import opened BackupCodes

  datatype Hash = Hash(plain: string, salt: nat)

  datatype Credentials = Credentials(
    enabled: bool, secret: Option<string>, lastStep: Option<int>, backupCodes: seq<Hash>)

  /** A patch of the stored record: an absent field keeps its value, a present one overwrites it, if
      need be with nothing. */
  datatype Patch = Patch(
    enabled: Option<bool>, secret: Option<Option<string>>, lastStep: Option<Option<int>>,
    backupCodes: Option<seq<Hash>>)

  datatype Error = NotFound | NotConfigured | AlreadyEnabled | InvalidCredentials | InvalidCode | StepOutOfRange

  // ---- What each use case decides and stores --------------------------------------------

  /** The codes an authenticator shows for a secret. */
  type Authenticators = string -> (int -> Option<string>)

  function WithHmac(hmac: Hmac): Authenticators {
    (secret: string) => CodesOf(hmac, Decoded(secret))
  }

  /** How a code passed, or why it did not. */
  datatype Check = ByStep(step: int) | ByBackupCode(index: nat) | Refused(error: Error)

  function ErrorOf(check: Check): Option<Error> {
    if check.Refused? then Some(check.error) else None
  }

  function CheckOf(verdict: Verdict): Check {
    match verdict
    case Accepted(step) => ByStep(step)
    case NoMatch => Refused(InvalidCode)
    case RangeError => Refused(StepOutOfRange)
  }

  /** A step counts only if it is later than the last one used. */
  function CheckFresh(verdict: Verdict, lastStep: Option<int>): Check {
    if verdict.Accepted? && lastStep.Some? && verdict.step <= lastStep.value then Refused(InvalidCode)
    else CheckOf(verdict)
  }

  function Matches(hash: Hash, code: string): bool {
    hash.plain == code
  }

  /** The first hash a code matches. */
  function FindCode(hashes: seq<Hash>, code: string): Option<nat> {
    if hashes == [] then None
    else if Matches(hashes[0], code) then Some(0)
    else
      var rest := FindCode(hashes[1..], code);
      if rest.None? then None else Some(rest.value + 1)
  }

  function WithoutAt(hashes: seq<Hash>, i: nat): seq<Hash> {
    if i < |hashes| then hashes[..i] + hashes[i + 1..] else hashes
  }

  function CheckConfirm(codes: Authenticators, c: Credentials, code: string, now: int): Check {
    if c.secret.None? then Refused(NotConfigured)
    else if c.enabled then Refused(AlreadyEnabled)
    else CheckOf(Verified(codes(c.secret.value), code, now))
  }

  function CheckVerify(codes: Authenticators, c: Credentials, raw: string, now: int): Check {
    if !c.enabled || c.secret.None? then Refused(InvalidCredentials)
    else
      var code := Trim(raw);
      if IsSixDigits(code) then CheckFresh(Verified(codes(c.secret.value), code, now), c.lastStep)
      else
        var found := FindCode(c.backupCodes, NormalizeBackupCode(code));
        if found.None? then Refused(InvalidCode) else ByBackupCode(found.value)
  }

  function CheckDisable(codes: Authenticators, c: Credentials, raw: string, now: int): Check {
    if !c.enabled || c.secret.None? then Refused(NotConfigured)
    else CheckFresh(Verified(codes(c.secret.value), Trim(raw), now), c.lastStep)
  }

  /** A new enrolment: a secret, and nothing else yet. */
  function Enrolled(secret: string): Credentials {
    Credentials(false, Some(secret), None, [])
  }

  const NO_MFA := Credentials(false, None, None, [])

  /** The record after a code passed `verify`. */
  function AfterUse(c: Credentials, check: Check): Credentials {
    match check
    case ByStep(step) => c.(lastStep := Some(step))
    case ByBackupCode(i) => c.(backupCodes := WithoutAt(c.backupCodes, i))
    case Refused(_) => c
  }

  // ---- The use cases --------------------------------------------------------------------

  /** The stored record of the user, if there is one. */
  class UserTable {
    var record: Option<Credentials>

    constructor (record: Option<Credentials>)
      ensures this.record == record
    {
      this.record := record;
    }

    method UpdateMfa(patch: Patch)
      requires record.Some?
      modifies this
      ensures record.Some?
      ensures var was := old(record).value;
        && record.value.enabled == (if patch.enabled.Some? then patch.enabled.value else was.enabled)
        && record.value.secret == (if patch.secret.Some? then patch.secret.value else was.secret)
        && record.value.lastStep == (if patch.lastStep.Some? then patch.lastStep.value else was.lastStep)
        && record.value.backupCodes == (if patch.backupCodes.Some? then patch.backupCodes.value else was.backupCodes)
    {
      var c := record.value;
      if patch.enabled.Some? {
        c := c.(enabled := patch.enabled.value);
      }
      if patch.secret.Some? {
        c := c.(secret := patch.secret.value);
      }
      if patch.lastStep.Some? {
        c := c.(lastStep := patch.lastStep.value);
      }
      if patch.backupCodes.Some? {
        c := c.(backupCodes := patch.backupCodes.value);
      }
      record := Some(c);
    }
  }

  class MfaService {
    const users: UserTable
    const codes: Authenticators

    constructor (users: UserTable, codes: Authenticators)
      ensures this.users == users && this.codes == codes
    {
      this.users, this.codes := users, codes;
    }

    /** A new secret, from random bytes; nothing is switched on. */
    method Setup(key: seq<Byte>) returns (error: Option<Error>, secret: string)
      modifies users
      ensures error ==
        if old(users.record).None? then Some(NotFound)
        else if old(users.record).value.enabled then Some(AlreadyEnabled) else None
      ensures error.Some? ==> users.record == old(users.record)
      ensures error.None? ==> secret == Symbols(Stream(key))
      ensures error.None? ==> users.record == Some(Credentials(false, Some(secret), None, []))
    {
      if users.record.None? {
        return Some(NotFound), "";
      }
      if users.record.value.enabled {
        return Some(AlreadyEnabled), "";
      }
      error := None;
      secret := Base32.Encode(key);
      users.UpdateMfa(Patch(Some(false), Some(Some(secret)), Some(None), Some([])));
    }

    /** The first right code switches the factor on and issues the backup codes. */
    method Confirm(code: string, picks: nat -> nat -> Pick, salts: nat -> nat, now: int)
      returns (error: Option<Error>, backupCodes: seq<string>)
      modifies users
      ensures old(users.record).None? ==> error == Some(NotConfigured)
      ensures old(users.record).Some? ==>
        && (old(users.record).value.secret.None? ==> error == Some(NotConfigured))
        && (old(users.record).value.secret.Some? && old(users.record).value.enabled ==> error == Some(AlreadyEnabled))
      ensures error.Some? ==> users.record == old(users.record)
      ensures old(users.record).Some? ==>
        var check := CheckConfirm(codes, old(users.record).value, code, now);
        && error == ErrorOf(check)
        && (check.ByStep? ==>
              && |backupCodes| == 8 && (forall s <- backupCodes :: IsBackupCode(s))
              && users.record.Some? && Plains(users.record.value.backupCodes) == backupCodes
              && users.record.value ==
                   Credentials(true, old(users.record).value.secret, Some(check.step), users.record.value.backupCodes))
    {
      backupCodes := [];
      if users.record.None? || users.record.value.secret.None? {
        return Some(NotConfigured), [];
      }
      var c := users.record.value;
      if c.enabled {
        return Some(AlreadyEnabled), [];
      }
      var verdict := Totp.VerifyWith(codes(c.secret.value), code, now);
      match verdict {
        case NoMatch => return Some(InvalidCode), [];
        case RangeError => return Some(StepOutOfRange), [];
        case Accepted(step) =>
          backupCodes := IssueBackupCodes(picks);
          var hashes := HashAll(backupCodes, salts);
          users.UpdateMfa(Patch(Some(true), None, Some(Some(step)), Some(hashes)));
          return None, backupCodes;
      }
    }

    /** The second factor of a login. */
    method Verify(raw: string, now: int) returns (error: Option<Error>)
      modifies users
      ensures old(users.record).None? ==> error == Some(InvalidCredentials) && users.record == old(users.record)
      ensures old(users.record).Some? && !(old(users.record).value.enabled && old(users.record).value.secret.Some?) ==>
        error == Some(InvalidCredentials) && users.record == old(users.record)
      ensures old(users.record).Some? ==>
        var check := CheckVerify(codes, old(users.record).value, raw, now);
        error == ErrorOf(check) && users.record == Some(AfterUse(old(users.record).value, check))
    {
      if users.record.None? || !users.record.value.enabled || users.record.value.secret.None? {
        return Some(InvalidCredentials);
      }
      var code := Trim(raw);
      if IsSixDigits(code) {
        error := ConsumeTotp(code, now);
      } else {
        error := ConsumeBackupCode(code);
      }
    }

    method ConsumeTotp(code: string, now: int) returns (error: Option<Error>)
      requires users.record.Some? && users.record.value.secret.Some?
      modifies users
      ensures var c := old(users.record).value;
        var check := CheckFresh(Verified(codes(c.secret.value), code, now), c.lastStep);
        error == ErrorOf(check) && users.record == Some(AfterUse(c, check))
    {
      var c := users.record.value;
      var verdict := Totp.VerifyWith(codes(c.secret.value), code, now);
      if verdict.RangeError? {
        return Some(StepOutOfRange);
      }
      if verdict.NoMatch? || (c.lastStep.Some? && verdict.step <= c.lastStep.value) {
        return Some(InvalidCode);
      }
      users.UpdateMfa(Patch(None, None, Some(Some(verdict.step)), None));
      return None;
    }

    method ConsumeBackupCode(raw: string) returns (error: Option<Error>)
      requires users.record.Some?
      modifies users
      ensures var c := old(users.record).value;
        var found := FindCode(c.backupCodes, NormalizeBackupCode(raw));
        if found.None? then error == Some(InvalidCode) && users.record == old(users.record)
        else error == None && users.record == Some(AfterUse(c, ByBackupCode(found.value)))
    {
      error := ConsumeNormalized(NormalizeBackupCode(raw));
    }

    method ConsumeNormalized(code: string) returns (error: Option<Error>)
      requires users.record.Some?
      modifies users
      ensures var c := old(users.record).value;
        var found := FindCode(c.backupCodes, code);
        if found.None? then error == Some(InvalidCode) && users.record == old(users.record)
        else error == None && users.record == Some(AfterUse(c, ByBackupCode(found.value)))
    {
      var hashes := users.record.value.backupCodes;
      for index := 0 to |hashes|
        invariant users.record == old(users.record)
        invariant FindCode(hashes, code) == Shifted(FindCode(hashes[index..], code), index)
      {
        if Matches(hashes[index], code) {
          var remaining := WithoutAt(hashes, index);
          users.UpdateMfa(Patch(None, None, None, Some(remaining)));
          return None;
        }
        assert hashes[index..][1..] == hashes[index + 1..];
      }
      return Some(InvalidCode);
    }

    /** Switching off takes a code of the authenticator and clears the record. */
    method Disable(raw: string, now: int) returns (error: Option<Error>)
      modifies users
      ensures old(users.record).None? ==> error == Some(NotConfigured) && users.record == old(users.record)
      ensures old(users.record).Some? && !(old(users.record).value.enabled && old(users.record).value.secret.Some?) ==>
        error == Some(NotConfigured) && users.record == old(users.record)
      ensures old(users.record).Some? ==>
        var check := CheckDisable(codes, old(users.record).value, raw, now);
        && error == ErrorOf(check)
        && users.record == if check.ByStep? then Some(Credentials(false, None, None, [])) else old(users.record)
    {
      if users.record.None? || !users.record.value.enabled || users.record.value.secret.None? {
        return Some(NotConfigured);
      }
      var c := users.record.value;
      var verdict := Totp.VerifyWith(codes(c.secret.value), Trim(raw), now);
      if verdict.RangeError? {
        return Some(StepOutOfRange);
      }
      if verdict.NoMatch? || (c.lastStep.Some? && verdict.step <= c.lastStep.value) {
        return Some(InvalidCode);
      }
      users.UpdateMfa(Patch(Some(false), Some(None), Some(None), Some([])));
      return None;
    }
  }

  function Shifted(found: Option<nat>, offset: nat): Option<nat> {
    if found.None? then None else Some(found.value + offset)
  }

  function Plains(hashes: seq<Hash>): seq<string> {
    if hashes == [] then [] else [hashes[0].plain] + Plains(hashes[1..])
  }

  method IssueBackupCodes(picks: nat -> nat -> Pick) returns (codes: seq<string>)
    ensures |codes| == BACKUP_CODES_COUNT
    ensures forall i | 0 <= i < |codes| :: codes[i] == GenerateBackupCode(picks(i)) && IsBackupCode(codes[i])
  {
    codes := [];
    for i := 0 to BACKUP_CODES_COUNT
      invariant |codes| == i
      invariant forall k | 0 <= k < i :: codes[k] == GenerateBackupCode(picks(k)) && IsBackupCode(codes[k])
    {
      GeneratedCodes(picks(i));
      codes := codes + [GenerateBackupCode(picks(i))];
    }
  }

  /** A hash of every code. */
  function HashAll(codes: seq<string>, salts: nat -> nat): (hashes: seq<Hash>)
    ensures Plains(hashes) == codes
  {
    if codes == [] then []
    else [Hash(codes[0], salts(0))] + HashAll(codes[1..], (i: nat) => salts(i + 1))
  }

  // ---- Runs -----------------------------------------------------------------------------

  datatype Request =
    | Setup(secret: string)
    | Confirm(code: string, hashes: seq<Hash>)
    | Verify(code: string)
    | Disable(code: string)

  datatype Move = Move(request: Request, now: int)

  /** An accepted code of the authenticator: its step, and when it was given. */
  datatype Use = Use(step: int, at: int)

  /** A user between requests: the record, and for the enrolment that began with the last setup the
      steps accepted, the backup codes issued and the backup codes spent. */
  datatype Account = Account(c: Credentials, uses: seq<Use>, issued: multiset<string>, spent: multiset<string>)

  const FRESH := Account(NO_MFA, [], multiset{}, multiset{})

  /** The code a request gives is checked; a setup gives none. */
  function CheckRequest(codes: Authenticators, c: Credentials, m: Move): Check {
    match m.request
    case Setup(_) => Refused(InvalidCode)
    case Confirm(code, _) => CheckConfirm(codes, c, code, m.now)
    case Verify(code) => CheckVerify(codes, c, code, m.now)
    case Disable(code) => CheckDisable(codes, c, code, m.now)
  }

  function UsesAfter(a: Account, check: Check, now: int): seq<Use> {
    if check.ByStep? then a.uses + [Use(check.step, now)] else a.uses
  }

  function Apply(codes: Authenticators, a: Account, m: Move): Account {
    var check := CheckRequest(codes, a.c, m);
    match m.request
    case Setup(secret) => if a.c.enabled then a else Account(Enrolled(secret), [], multiset{}, multiset{})
    case Confirm(_, hashes) =>
      if !check.ByStep? then a
      else
        var c := Credentials(true, a.c.secret, Some(check.step), hashes);
        Account(c, UsesAfter(a, check, m.now), multiset(Plains(hashes)), multiset{})
    case Verify(code) => AfterVerify(a, check, NormalizeBackupCode(Trim(code)), m.now)
    case Disable(_) => if check.ByStep? then a.(c := NO_MFA, uses := UsesAfter(a, check, m.now)) else a
  }

  function AfterVerify(a: Account, check: Check, backupCode: string, now: int): Account {
    Account(AfterUse(a.c, check), UsesAfter(a, check, now), a.issued,
            if check.ByBackupCode? then a.spent + multiset{backupCode} else a.spent)
  }

  function After(codes: Authenticators, a: Account, moves: seq<Move>): Account
    decreases |moves|
  {
    if moves == [] then a else After(codes, Apply(codes, a, moves[0]), moves[1..])
  }

  /** What confirming issues: eight backup codes. */
  predicate Issues(m: Move) {
    m.request.Confirm? ==>
      |m.request.hashes| == BACKUP_CODES_COUNT && forall h <- m.request.hashes :: IsBackupCode(h.plain)
  }

  // ---- Steps only move forward ----------------------------------------------------------

  predicate StepsIncrease(uses: seq<Use>) {
    forall i, j | 0 <= i < j < |uses| :: uses[i].step < uses[j].step
  }

  /** A step is accepted within one of the step of its time. */
  predicate InWindow(u: Use) {
    CurrentStep(u.at) - WINDOW <= u.step <= CurrentStep(u.at) + WINDOW
  }

  /** The invariant: the accepted steps increase, the last of them is the stored one while the factor
      is on, none was accepted before it is switched on, and the backup codes spent and left are the
      eight issued. */
  ghost predicate Inv(a: Account) {
    && StepsIncrease(a.uses)
    && (forall u <- a.uses :: InWindow(u))
    && (a.c.enabled ==> a.uses != [] && a.c.lastStep == Some(a.uses[|a.uses| - 1].step))
    && (!a.c.enabled && a.c.secret.Some? ==> a.uses == [])
    && (a.c.enabled ==> Conserved(a))
  }

  ghost predicate Conserved(a: Account) {
    multiset(Plains(a.c.backupCodes)) + a.spent == a.issued && |a.issued| == BACKUP_CODES_COUNT
  }

  lemma VerdictInWindow(codes: int -> Option<string>, code: string, now: int)
    requires Verified(codes, code, now).Accepted?
    ensures InWindow(Use(Verified(codes, code, now).step, now))
  {
    VerifiedExactly(codes, code, now);
  }

  lemma CheckInWindow(codes: Authenticators, c: Credentials, m: Move)
    requires CheckRequest(codes, c, m).ByStep?
    ensures InWindow(Use(CheckRequest(codes, c, m).step, m.now))
    ensures c.enabled && c.lastStep.Some? ==> c.lastStep.value < CheckRequest(codes, c, m).step
  {
    var code := if m.request.Confirm? then m.request.code else Trim(m.request.code);
    VerdictInWindow(codes(c.secret.value), code, m.now);
  }

  lemma UseKeepsSteps(uses: seq<Use>, u: Use)
    requires StepsIncrease(uses) && (forall v <- uses :: InWindow(v)) && InWindow(u)
    requires uses != [] ==> uses[|uses| - 1].step < u.step
    ensures StepsIncrease(uses + [u]) && forall v <- uses + [u] :: InWindow(v)
  {}

  /** The index found is one whose code matches, and none is found only if none matches. */
  lemma {:induction false} FindCodeExactly(hashes: seq<Hash>, code: string)
    ensures FindCode(hashes, code).None? <==> code !in Plains(hashes)
    ensures FindCode(hashes, code).Some? ==>
      FindCode(hashes, code).value < |hashes| && hashes[FindCode(hashes, code).value].plain == code
  {
    if hashes != [] {
      FindCodeExactly(hashes[1..], code);
    }
  }

  lemma {:induction false} PlainsConcat(a: seq<Hash>, b: seq<Hash>)
    ensures Plains(a + b) == Plains(a) + Plains(b)
  {
    if a == [] {
      assert a + b == b;
    } else {
      assert (a + b)[1..] == a[1..] + b;
      PlainsConcat(a[1..], b);
    }
  }

  lemma PlainsCons(h: Hash, rest: seq<Hash>)
    ensures Plains([h] + rest) == [h.plain] + Plains(rest)
  {
    assert ([h] + rest)[1..] == rest;
  }

  lemma InsertedElement(x: seq<string>, e: string, y: seq<string>)
    ensures multiset(x + ([e] + y)) == multiset(x + y) + multiset{e}
  {}

  lemma InsertedHash(a: seq<Hash>, h: Hash, b: seq<Hash>)
    ensures multiset(Plains(a + ([h] + b))) == multiset(Plains(a + b)) + multiset{h.plain}
  {
    PlainsConcat(a, [h] + b);
    PlainsCons(h, b);
    PlainsConcat(a, b);
    InsertedElement(Plains(a), h.plain, Plains(b));
  }

  /** Deleting a hash deletes one occurrence of its code. */
  lemma PlainsWithoutAt(hashes: seq<Hash>, i: nat)
    requires i < |hashes|
    ensures multiset(Plains(hashes)) == multiset(Plains(WithoutAt(hashes, i))) + multiset{hashes[i].plain}
  {
    SplitAt(hashes, i);
    InsertedHash(hashes[..i], hashes[i], hashes[i + 1..]);
  }

  lemma SplitAt(hashes: seq<Hash>, i: nat)
    requires i < |hashes|
    ensures hashes == hashes[..i] + ([hashes[i]] + hashes[i + 1..])
  {}

  /** Spending a code that is left takes it out of what is left. */
  lemma SpendOne(hashes: seq<Hash>, code: string)
    requires FindCode(hashes, code).Some?
    ensures var left := WithoutAt(hashes, FindCode(hashes, code).value);
      multiset(Plains(hashes)) == multiset(Plains(left)) + multiset{code}
  {
    FindCodeExactly(hashes, code);
    PlainsWithoutAt(hashes, FindCode(hashes, code).value);
  }

  lemma {:induction false} PlainsLength(hashes: seq<Hash>)
    ensures |Plains(hashes)| == |hashes|
  {
    if hashes != [] {
      PlainsLength(hashes[1..]);
    }
  }

  lemma ConfirmKeeps(codes: Authenticators, a: Account, m: Move)
    requires Inv(a) && m.request.Confirm? && Issues(m)
    ensures Inv(Apply(codes, a, m))
  {
    var check := CheckRequest(codes, a.c, m);
    if check.ByStep? {
      CheckInWindow(codes, a.c, m);
      UseKeepsSteps(a.uses, Use(check.step, m.now));
      PlainsLength(m.request.hashes);
    }
  }

  lemma VerifyKeeps(codes: Authenticators, a: Account, m: Move)
    requires Inv(a) && m.request.Verify?
    ensures Inv(Apply(codes, a, m))
  {
    var check := CheckRequest(codes, a.c, m);
    if check.ByStep? {
      CheckInWindow(codes, a.c, m);
    }
    AfterVerifyKeeps(a, check, NormalizeBackupCode(Trim(m.request.code)), m.now);
  }

  lemma AfterVerifyKeeps(a: Account, check: Check, backupCode: string, now: int)
    requires Inv(a) && (!check.Refused? ==> a.c.enabled)
    requires check.ByStep? ==> InWindow(Use(check.step, now)) && a.c.lastStep.value < check.step
    requires check.ByBackupCode? ==> FindCode(a.c.backupCodes, backupCode) == Some(check.index)
    ensures Inv(AfterVerify(a, check, backupCode, now))
  {
    if check.ByStep? {
      UseKeepsSteps(a.uses, Use(check.step, now));
    } else if check.ByBackupCode? {
      SpendOne(a.c.backupCodes, backupCode);
    }
  }

  lemma DisableKeeps(codes: Authenticators, a: Account, m: Move)
    requires Inv(a) && m.request.Disable?
    ensures Inv(Apply(codes, a, m))
  {
    var check := CheckRequest(codes, a.c, m);
    if check.ByStep? {
      CheckInWindow(codes, a.c, m);
      UseKeepsSteps(a.uses, Use(check.step, m.now));
    }
  }

  lemma StepKeeps(codes: Authenticators, a: Account, m: Move)
    requires Inv(a) && Issues(m)
    ensures Inv(Apply(codes, a, m))
  {
    match m.request
    case Setup(_) =>
    case Confirm(_, _) => ConfirmKeeps(codes, a, m);
    case Verify(_) => VerifyKeeps(codes, a, m);
    case Disable(_) => DisableKeeps(codes, a, m);
  }

  lemma {:induction false} RunKeeps(codes: Authenticators, a: Account, moves: seq<Move>)
    requires Inv(a) && forall m <- moves :: Issues(m)
    ensures Inv(After(codes, a, moves))
    decreases |moves|
  {
    if moves != [] {
      StepKeeps(codes, a, moves[0]);
      RunKeeps(codes, Apply(codes, a, moves[0]), moves[1..]);
    }
  }

  // ---- What it means --------------------------------------------------------------------

  function CountWithin(uses: seq<Use>, from: int, to: int): nat {
    if uses == [] then 0
    else CountWithin(uses[..|uses| - 1], from, to) + (if from <= uses[|uses| - 1].at <= to then 1 else 0)
  }

  /** Increasing steps of which those within the interval lie between two steps. */
  lemma {:induction false} IncreasingStepsCount(uses: seq<Use>, from: int, to: int, least: int, most: int)
    requires StepsIncrease(uses) && forall u <- uses :: from <= u.at <= to ==> least <= u.step <= most
    ensures var n := CountWithin(uses, from, to);
      n == 0 || n <= Min(uses[|uses| - 1].step, most) - least + 1
  {
    if uses != [] {
      var init, last := uses[..|uses| - 1], uses[|uses| - 1];
      IncreasingStepsCount(init, from, to, least, most);
      assert last in uses;
      assert init != [] ==> init[|init| - 1].step < last.step;
    }
  }

  function Min(a: int, b: int): int {
    if a < b then a else b
  }

  /** In every run from an account without the factor: within the current enrolment each accepted step
      is later than all before it, whatever backup codes were used in between; in any interval at most
      three codes more are accepted than time steps begin in it; and the backup codes spent and left
      are the eight issued. */
  lemma EveryRunIsSafe(codes: Authenticators, moves: seq<Move>, from: int, to: int)
    requires (forall m <- moves :: Issues(m)) && from <= to
    ensures var a := After(codes, FRESH, moves);
      && StepsIncrease(a.uses)
      && CountWithin(a.uses, from, to) <= CurrentStep(to) - CurrentStep(from) + 3
      && (a.c.enabled ==>
            && multiset(Plains(a.c.backupCodes)) + a.spent == a.issued && |a.issued| == 8
            && |a.spent| + |a.c.backupCodes| == 8)
  {
    RunKeeps(codes, FRESH, moves);
    var a := After(codes, FRESH, moves);
    forall u <- a.uses | from <= u.at <= to
      ensures CurrentStep(from) - 1 <= u.step <= CurrentStep(to) + 1
    {
      StepIsMonotone(from, u.at);
      StepIsMonotone(u.at, to);
      assert InWindow(u);
    }
    StepIsMonotone(from, to);
    IncreasingStepsCount(a.uses, from, to, CurrentStep(from) - 1, CurrentStep(to) + 1);
    PlainsLength(a.c.backupCodes);
  }

  lemma StepIsMonotone(a: int, b: int)
    requires a <= b
    ensures CurrentStep(a) <= CurrentStep(b)
  {}

  /** The factor is on after every request: none switches it off, though some may try. */
  predicate StaysOn(codes: Authenticators, a: Account, moves: seq<Move>)
    decreases |moves|
  {
    moves != [] ==>
      var next := Apply(codes, a, moves[0]);
      next.c.enabled && StaysOn(codes, next, moves[1..])
  }

  lemma UsesStay(codes: Authenticators, a: Account, m: Move)
    requires Inv(a) && a.c.enabled && Apply(codes, a, m).c.enabled
    ensures a.uses <= Apply(codes, a, m).uses
  {}

  /** Until the factor is switched off the record of accepted steps only grows. */
  lemma {:induction false} UsesGrow(codes: Authenticators, a: Account, moves: seq<Move>)
    requires Inv(a) && a.c.enabled && (forall n <- moves :: Issues(n)) && StaysOn(codes, a, moves)
    ensures var b := After(codes, a, moves); Inv(b) && b.c.enabled && a.uses <= b.uses
    decreases |moves|
  {
    if moves != [] {
      var next := Apply(codes, a, moves[0]);
      StepKeeps(codes, a, moves[0]);
      UsesStay(codes, a, moves[0]);
      UsesGrow(codes, next, moves[1..]);
    }
  }

  lemma StoredStepIsGreatest(a: Account, earlier: seq<Use>, used: Use)
    requires Inv(a) && a.c.enabled && earlier <= a.uses && used in earlier
    ensures a.c.lastStep.Some? && used.step <= a.c.lastStep.value
  {
    var i :| 0 <= i < |earlier| && earlier[i] == used;
    assert a.uses[i] == used;
    LastIsGreatest(a.uses, used);
  }

  /** No replay: until the factor is switched off, whatever is requested, a code is accepted for no step
      that was accepted before, nor for an earlier one. */
  lemma NoReplay(codes: Authenticators, a: Account, moves: seq<Move>, m: Move, used: Use)
    requires Inv(a) && a.c.enabled && (forall n <- moves :: Issues(n)) && StaysOn(codes, a, moves)
    requires used in a.uses && CheckRequest(codes, After(codes, a, moves).c, m).ByStep?
    ensures used.step < CheckRequest(codes, After(codes, a, moves).c, m).step
  {
    UsesGrow(codes, a, moves);
    StoredStepIsGreatest(After(codes, a, moves), a.uses, used);
    CheckInWindow(codes, After(codes, a, moves).c, m);
  }

  lemma LastIsGreatest(uses: seq<Use>, u: Use)
    requires StepsIncrease(uses) && u in uses
    ensures u.step <= uses[|uses| - 1].step
  {}

  predicate IsUnused(c: Credentials, step: int) {
    c.lastStep.Some? ==> c.lastStep.value < step
  }

  /** The least step of the window around a time that shows a code. */
  predicate IsLeastShown(shown: int -> Option<string>, code: string, now: int, step: int) {
    && CurrentStep(now) - WINDOW <= step <= CurrentStep(now) + WINDOW
    && shown(step) == Some(code) && Passed(shown, CurrentStep(now) - WINDOW, step, code)
  }

  /** Six digits pass a login exactly when the least step of the window that shows them is unused. */
  lemma LoginPassesExactly(codes: Authenticators, c: Credentials, raw: string, code: string, now: int)
    requires c.enabled && c.secret.Some? && code == Trim(raw) && IsSixDigits(code)
    ensures CheckVerify(codes, c, raw, now).ByStep? <==>
      exists step :: IsLeastShown(codes(c.secret.value), code, now, step) && IsUnused(c, step)
  {
    var shown := codes(c.secret.value);
    VerifiedExactly(shown, code, now);
    forall step | IsLeastShown(shown, code, now, step)
      ensures Verified(shown, code, now) == Accepted(step)
    {
      LeastShownIsVerified(shown, code, now, step);
    }
  }

  lemma LeastShownIsVerified(shown: int -> Option<string>, code: string, now: int, step: int)
    requires IsSixDigits(code) && IsLeastShown(shown, code, now, step)
    ensures Verified(shown, code, now) == Accepted(step)
  {
    VerifiedExactly(shown, code, now);
  }

  /** A login changes the record only by what it uses up: the step, or one backup code. */
  lemma LoginUsesUp(codes: Authenticators, a: Account, raw: string, now: int)
    ensures var check := CheckVerify(codes, a.c, raw, now);
      var a' := Apply(codes, a, Move(Verify(raw), now));
      && (check.ByStep? ==>
            && a'.c == a.c.(lastStep := Some(check.step))
            && a'.uses == a.uses + [Use(check.step, now)] && a'.spent == a.spent)
      && (check.ByBackupCode? && check.index < |a.c.backupCodes| ==>
            var i := check.index;
            && a'.c == a.c.(backupCodes := a.c.backupCodes[..i] + a.c.backupCodes[i + 1..])
            && a'.uses == a.uses && a'.spent == a.spent + multiset{NormalizeBackupCode(Trim(raw))})
      && (check.Refused? ==> a'.c == a.c && a'.uses == a.uses && a'.spent == a.spent)
  {}

  /** A setup begins a new enrolment exactly when the factor is off. */
  lemma SetupExactly(codes: Authenticators, a: Account, secret: string, now: int)
    ensures Apply(codes, a, Move(Setup(secret), now)) ==
      if a.c.enabled then a
      else Account(Credentials(false, Some(secret), None, []), [], multiset{}, multiset{})
  {}

  /** A request to switch the factor off succeeds exactly with six digits whose least step in the window
      is unused, and clears the record; it changes nothing otherwise. */
  lemma DisablePassesExactly(codes: Authenticators, a: Account, raw: string, code: string, now: int)
    requires code == Trim(raw)
    ensures var a' := Apply(codes, a, Move(Disable(raw), now));
      if a.c.enabled && a.c.secret.Some? && IsSixDigits(code)
         && exists step :: IsLeastShown(codes(a.c.secret.value), code, now, step) && IsUnused(a.c, step)
      then a'.c == Credentials(false, None, None, [])
      else a' == a
  {
    if a.c.enabled && a.c.secret.Some? {
      var shown := codes(a.c.secret.value);
      VerifiedExactly(shown, code, now);
      if Verified(shown, code, now).Accepted? {
        assert IsLeastShown(shown, code, now, Verified(shown, code, now).step);
      }
      forall step | IsSixDigits(code) && IsLeastShown(shown, code, now, step)
        ensures Verified(shown, code, now) == Accepted(step)
      {
        LeastShownIsVerified(shown, code, now, step);
      }
    }
  }

  /** A confirmation succeeds exactly for a secret that is set up and not switched on, with six digits
      that the window shows; the factor is then on, with the least step that shows them used. */
  lemma ConfirmPassesExactly(codes: Authenticators, a: Account, code: string, hashes: seq<Hash>, now: int)
    ensures var a' := Apply(codes, a, Move(Confirm(code, hashes), now));
      if !a.c.enabled && a.c.secret.Some? && IsSixDigits(code)
         && exists step :: IsLeastShown(codes(a.c.secret.value), code, now, step)
      then
        exists step ::
          && IsLeastShown(codes(a.c.secret.value), code, now, step)
          && a'.c == Credentials(true, a.c.secret, Some(step), hashes)
      else a' == a
  {
    if !a.c.enabled && a.c.secret.Some? {
      var shown := codes(a.c.secret.value);
      VerifiedExactly(shown, code, now);
      if Verified(shown, code, now).Accepted? {
        assert IsLeastShown(shown, code, now, Verified(shown, code, now).step);
      }
      forall step | IsSixDigits(code) && IsLeastShown(shown, code, now, step)
        ensures Verified(shown, code, now) == Accepted(step)
      {
        LeastShownIsVerified(shown, code, now, step);
      }
    }
  }

  /** So the right code of an unused step is refused exactly when a used step of the window shows the
      same digits. */
  lemma UnusedCodeIsRefusedExactly(
    codes: Authenticators, c: Credentials, raw: string, code: string, step: int, now: int)
    requires c.enabled && c.secret.Some? && code == Trim(raw) && IsSixDigits(code)
    requires forall s | CurrentStep(now) - WINDOW <= s <= CurrentStep(now) + WINDOW :: codes(c.secret.value)(s).Some?
    requires CurrentStep(now) - WINDOW <= step <= CurrentStep(now) + WINDOW
    requires codes(c.secret.value)(step) == Some(code) && IsUnused(c, step)
    ensures CheckVerify(codes, c, raw, now) == Refused(InvalidCode) <==>
      exists s :: IsShown(codes(c.secret.value), code, now, s) && !IsUnused(c, s)
    ensures CheckVerify(codes, c, raw, now) != Refused(InvalidCode) ==> CheckVerify(codes, c, raw, now).ByStep?
  {
    var shown := codes(c.secret.value);
    VerifiedExactly(shown, code, now);
    assert IsShown(shown, code, now, step);
    var least := Verified(shown, code, now).step;
    assert IsShown(shown, code, now, least);
    assert forall s | IsShown(shown, code, now, s) :: least <= s;
  }

  predicate IsShown(shown: int -> Option<string>, code: string, now: int, step: int) {
    CurrentStep(now) - WINDOW <= step <= CurrentStep(now) + WINDOW && shown(step) == Some(code)
  }

  /** A text that is no six digits passes exactly when it normalises to a code that is left. */
  lemma BackupCodePassesExactly(codes: Authenticators, c: Credentials, raw: string, now: int)
    requires c.enabled && c.secret.Some? && !IsSixDigits(Trim(raw))
    ensures CheckVerify(codes, c, raw, now).ByBackupCode? <==> NormalizeBackupCode(Trim(raw)) in Plains(c.backupCodes)
    ensures !CheckVerify(codes, c, raw, now).ByStep?
  {
    FindCodeExactly(c.backupCodes, NormalizeBackupCode(Trim(raw)));
  }

  /** A code that is left passes however it is typed, and once: it is taken out of what is left. */
  lemma RetypedCodePasses(codes: Authenticators, c: Credentials, typed: string, code: string, now: int)
    requires c.enabled && c.secret.Some? && code in Plains(c.backupCodes)
    requires IsBackupCode(code) && IsRetyping(typed, code)
    ensures var check := CheckVerify(codes, c, typed, now);
      && check.ByBackupCode?
      && multiset(Plains(c.backupCodes)) == multiset(Plains(AfterUse(c, check).backupCodes)) + multiset{code}
  {
    RetypingTrimmed(typed, code);
    UpperCharIsUpperCasing();
    RetypingNormalizes(Trim(typed), code, UpperChar);
    FindCodeExactly(c.backupCodes, code);
    SpendOne(c.backupCodes, code);
    PassesWith(codes, c, typed, code, now);
  }

  lemma PassesWith(codes: Authenticators, c: Credentials, typed: string, code: string, now: int)
    requires c.enabled && c.secret.Some? && |Trim(typed)| >= 8 && NormalizeBackupCode(Trim(typed)) == code
    requires FindCode(c.backupCodes, code).Some?
    ensures CheckVerify(codes, c, typed, now) == ByBackupCode(FindCode(c.backupCodes, code).value)
  {}

  lemma CodesOfTyping(hmac: Hmac, codes: Authenticators, key: seq<Byte>, typed: string)
    requires codes == WithHmac(hmac) && IsTyping(typed, Symbols(Stream(key)))
    ensures codes(typed) == CodesOf(hmac, key)
  {
    TypingKeepsTheKey(typed, key);
  }

  lemma ConfirmPasses(codes: Authenticators, secret: string, code: string, now: int)
    requires Verified(codes(secret), code, now).Accepted?
    ensures CheckConfirm(codes, Enrolled(secret), code, now).ByStep?
  {}

  lemma AcceptedByKey(hmac: Hmac, key: seq<Byte>, codes: int -> Option<string>, step: int, shown: string, now: int)
    requires WindowInRange(now) && CurrentStep(now) - WINDOW <= step <= CurrentStep(now) + WINDOW
    requires codes == CodesOf(hmac, key) && codes(step) == Some(shown)
    ensures Verified(codes, shown, now).Accepted?
  {
    VerifiedInRange(hmac, key, shown, now);
  }

  /** An enrolment can be completed: whichever way its secret is typed into an authenticator, the code
      shown for a step of the window confirms it. */
  lemma EnrolmentSucceeds(
    hmac: Hmac, codes: Authenticators, key: seq<Byte>, secret: string, typed: string, step: int, shown: string,
    now: int)
    requires codes == WithHmac(hmac) && secret == Symbols(Stream(key)) && IsTyping(typed, secret)
    requires WindowInRange(now) && CurrentStep(now) - WINDOW <= step <= CurrentStep(now) + WINDOW
    requires codes(typed)(step) == Some(shown)
    ensures CheckConfirm(codes, Enrolled(secret), shown, now).ByStep?
  {
    CodesOfTyping(hmac, codes, key, typed);
    CodesOfTyping(hmac, codes, key, secret);
    AcceptedByKey(hmac, key, codes(secret), step, shown, now);
    ConfirmPasses(codes, secret, shown, now);
  }
}
