/** HOTP codes and their verification in a window of time steps.

    HMAC-SHA1 is any function to twenty bytes. */
module Totp {
  import opened Options
  import opened Int32
  import opened Text
  import opened Base32

  const STEP_MS := 30_000
  const DIGITS := 6
  const WINDOW := 1

  type Digest = d: seq<Byte> | |d| == 20 witness seq(20, _ => 0)

  type Hmac = (seq<Byte>, seq<Byte>) -> Digest

  // ---- Dynamic truncation ---------------------------------------------------------------

  function Offset(digest: Digest): (offset: nat)
    ensures offset == digest[19] % 16
  {
    assert Scale(1, 4) == 16;
    AndBelow(digest[19], 4, 16);
    And(digest[19], 0x0f)
  }

  /** Bytes `a`, `b`, `c`, `d` from the offset on, put together by shifts and ors. */
  function Assemble(a: nat, b: nat, c: nat, d: nat): (binary: nat)
    requires a < 256 && b < 256 && c < 256 && d < 256
    ensures binary == a % 128 * 0x100_0000 + b * 0x1_0000 + c * 0x100 + d
  {
    MaskSevenBits(a);
    MaskEightBits(b);
    MaskEightBits(c);
    MaskEightBits(d);
    Combine(And(a, 0x7f), And(b, 0xff), And(c, 0xff), And(d, 0xff))
  }

  /** `b << k`, for shifts that keep the sign bit clear. */
  function ShiftedByte(b: nat, k: nat): (r: nat)
    requires Scale(b, k) < 0x8000_0000
    ensures r == Scale(b, k)
  {
    ShiftLeft(b, k)
  }

  function Combine(a: nat, b: nat, c: nat, d: nat): (binary: nat)
    requires a < 128 && b < 256 && c < 256 && d < 256
    ensures binary == a * 0x100_0000 + b * 0x1_0000 + c * 0x100 + d
  {
    ShiftedBytes(a, b, c, d);
    var two: nat := Or(ShiftedByte(a, 24), ShiftedByte(b, 16));
    var three: nat := Or(two, ShiftedByte(c, 8));
    Or(three, d)
  }

  lemma MaskSevenBits(b: nat)
    ensures And(b, 0x7f) == b % 128
  {
    assert Scale(1, 7) == 128;
    AndBelow(b, 7, 128);
  }

  lemma MaskEightBits(b: nat)
    requires b < 256
    ensures And(b, 0xff) == b
  {
    Powers();
    AndKeeps(b, 8, 256);
  }

  /** No shift reaches the sign bit, and no two shifted bytes overlap. */
  lemma ShiftedBytes(a: nat, b: nat, c: nat, d: nat)
    requires a < 128 && b < 256 && c < 256 && d < 256
    ensures Scale(a, 24) == a * 0x100_0000 && Scale(b, 16) == b * 0x1_0000 && Scale(c, 8) == c * 0x100
    ensures Or(a * 0x100_0000, b * 0x1_0000) == a * 0x100_0000 + b * 0x1_0000
    ensures Or(a * 0x100_0000 + b * 0x1_0000, c * 0x100) == a * 0x100_0000 + b * 0x1_0000 + c * 0x100
    ensures Or(a * 0x100_0000 + b * 0x1_0000 + c * 0x100, d) == a * 0x100_0000 + b * 0x1_0000 + c * 0x100 + d
  {
    ScaleBytes(a);
    ScaleBytes(b);
    ScaleBytes(c);
    OrBytes(a, b * 0x1_0000, 24, 0x100_0000);
    OrBytes(a * 0x100 + b, c * 0x100, 16, 0x1_0000);
    OrBytes(a * 0x1_0000 + b * 0x100 + c, d, 8, 0x100);
  }

  lemma OrBytes(v: nat, w: nat, k: nat, m: nat)
    requires (k == 8 && m == 0x100) || (k == 16 && m == 0x1_0000) || (k == 24 && m == 0x100_0000)
    requires w < m
    ensures Or(v * m, w) == v * m + w
  {
    ScaleBytes(v);
    ScaleBytes(1);
    OrAdds(v, w, k);
  }

  lemma ScaleBytes(v: nat)
    ensures Scale(v, 8) == v * 0x100 && Scale(v, 16) == v * 0x1_0000 && Scale(v, 24) == v * 0x100_0000
  {
    ScaleByte(v, 0);
    ScaleByte(v, 8);
    ScaleByte(v, 16);
  }

  lemma ScaleByte(v: nat, k: nat)
    ensures Scale(v, k + 8) == 0x100 * Scale(v, k)
  {
    assert Scale(v, k + 8) == 4 * Scale(v, k + 6) == 16 * Scale(v, k + 4) == 64 * Scale(v, k + 2);
  }

  function Truncate(digest: Digest): nat {
    var offset := Offset(digest);
    Assemble(digest[offset], digest[offset + 1], digest[offset + 2], digest[offset + 3])
  }

  /** Section 5.3 of RFC 4226: four bytes at an offset in bounds, read big-endian, without the
      most significant bit. */
  lemma TruncationIsBigEndian(digest: Digest)
    ensures var offset := digest[19] % 16;
      && offset + 3 < 20
      && Truncate(digest) == Value(digest[offset..offset + 4]) % 0x8000_0000
  {
    var w := digest[digest[19] % 16..digest[19] % 16 + 4];
    ValueOfFour(w);
    WithoutTopBit(w[0], w[1], w[2], w[3]);
  }

  lemma WithoutTopBit(a: nat, b: nat, c: nat, d: nat)
    requires a < 256 && b < 256 && c < 256 && d < 256
    ensures Assemble(a, b, c, d) == BytesToNumber(a, b, c, d) % 0x8000_0000
  {
    var low := BytesToNumber(a % 128, b, c, d);
    assert low < 0x8000_0000;
    TopBitDropped(low, BytesToNumber(a, b, c, d), if a < 128 then 0 else 1);
  }

  lemma ValueOfFour(w: seq<Byte>)
    requires |w| == 4
    ensures Value(w) == BytesToNumber(w[0], w[1], w[2], w[3])
  {
    var u, v := w[..3], w[..2];
    assert u[..2] == v && v[..1] == [w[0]] && [w[0]][..0] == [];
    assert Value(v[..1]) == w[0];
    assert Value(v) == 0x100 * Value(v[..1]) + w[1];
    assert Value(u) == 0x100 * Value(v) + w[2];
  }

  lemma TopBitDropped(low: nat, n: nat, top: nat)
    requires low < 0x8000_0000 && top <= 1 && n == top * 0x8000_0000 + low
    ensures n % 0x8000_0000 == low
  {}

  function BytesToNumber(a: nat, b: nat, c: nat, d: nat): nat {
    a * 0x100_0000 + b * 0x1_0000 + c * 0x100 + d
  }

  /** The number a byte string denotes, most significant byte first. */
  function Value(bytes: seq<Byte>): nat {
    if bytes == [] then 0 else 0x100 * Value(bytes[..|bytes| - 1]) + bytes[|bytes| - 1]
  }

  // ---- Decimal digits -------------------------------------------------------------------

  function DigitValue(c: char): (d: nat)
    requires IsDigit(c)
    ensures d < 10
  {
    c as int - '0' as int
  }

  function Digit(d: nat): (c: char)
    requires d < 10
    ensures IsDigit(c) && DigitValue(c) == d
  {
    ('0' as int + d) as char
  }

  /** `String(n)` */
  function Decimal(n: nat): string {
    if n < 10 then [Digit(n)] else Decimal(n / 10) + [Digit(n % 10)]
  }

  /** `s.padStart(width, '0')` */
  function PadStart(s: string, width: nat): string
    decreases width - |s|
  {
    if |s| >= width then s else PadStart("0" + s, width)
  }

  predicate AllDigits(s: string) {
    forall c <- s :: IsDigit(c)
  }

  /** The number a digit string denotes. */
  function Denoted(s: string): nat
    requires AllDigits(s)
  {
    if s == "" then 0 else 10 * Denoted(s[..|s| - 1]) + DigitValue(s[|s| - 1])
  }

  function Power10(k: nat): nat {
    if k == 0 then 1 else 10 * Power10(k - 1)
  }

  lemma {:induction false} DecimalDenotes(n: nat, k: nat)
    requires n < Power10(k) && k > 0
    ensures AllDigits(Decimal(n)) && 0 < |Decimal(n)| <= k && Denoted(Decimal(n)) == n
    decreases k
  {
    if n < 10 {
      assert Decimal(n)[..0] == "";
    } else {
      DecimalDenotes(n / 10, k - 1);
      assert Decimal(n)[..|Decimal(n)| - 1] == Decimal(n / 10);
    }
  }

  lemma {:induction false} PaddingDenotes(s: string, width: nat)
    requires AllDigits(s)
    ensures AllDigits(PadStart(s, width)) && Denoted(PadStart(s, width)) == Denoted(s)
    ensures |PadStart(s, width)| == if |s| < width then width else |s|
    decreases width - |s|
  {
    if |s| < width {
      LeadingZero(s);
      PaddingDenotes("0" + s, width);
    }
  }

  lemma {:induction false} LeadingZero(s: string)
    requires AllDigits(s)
    ensures AllDigits("0" + s) && Denoted("0" + s) == Denoted(s)
  {
    if s != "" {
      LeadingZero(s[..|s| - 1]);
      assert ("0" + s)[..|s|] == "0" + s[..|s| - 1];
    } else {
      assert ("0" + s)[..0] == "";
    }
  }

  lemma {:induction false} SameNumberSameDigits(s: string, t: string)
    requires AllDigits(s) && AllDigits(t) && |s| == |t|
    requires Denoted(s) == Denoted(t)
    ensures s == t
  {
    if s != "" {
      var s', t' := s[..|s| - 1], t[..|t| - 1];
      LastDigitAlone(Denoted(s'), s[|s| - 1], Denoted(t'), t[|t| - 1]);
      SameNumberSameDigits(s', t');
      assert s == s' + [s[|s| - 1]] && t == t' + [t[|t| - 1]];
    }
  }

  lemma LastDigitAlone(x: nat, c: char, y: nat, d: char)
    requires IsDigit(c) && IsDigit(d) && 10 * x + DigitValue(c) == 10 * y + DigitValue(d)
    ensures x == y && c == d
  {}

  /** The code of a truncated digest: `String(binary % 10 ** 6).padStart(6, '0')`. */
  function Code(binary: nat): string {
    PadStart(Decimal(binary % 1_000_000), DIGITS)
  }

  predicate IsSixDigits(s: string) {
    |s| == 6 && AllDigits(s)
  }

  /** Six decimal digits that denote the number modulo a million. */
  lemma CodeDenotes(binary: nat)
    ensures IsSixDigits(Code(binary))
    ensures Denoted(Code(binary)) == binary % 1_000_000
  {
    assert Power10(DIGITS) == 1_000_000;
    DecimalDenotes(binary % 1_000_000, DIGITS);
    PaddingDenotes(Decimal(binary % 1_000_000), DIGITS);
  }

  // ---- HOTP -----------------------------------------------------------------------------

  /** What an unsigned 64-bit big-endian write accepts; anything else raises a range error. */
  predicate IsCounter(counter: int) {
    0 <= counter < 0x1_0000_0000_0000_0000
  }

  /** The counter as `n` bytes, most significant first. */
  function BigEndian(counter: nat, n: nat): seq<Byte>
    decreases n
  {
    if n == 0 then [] else BigEndian(counter / 256, n - 1) + [counter % 256]
  }

  function Hotp(hmac: Hmac, key: seq<Byte>, counter: int): string
    requires IsCounter(counter)
  {
    Code(Truncate(hmac(key, BigEndian(counter, 8))))
  }

  /** The message is the counter itself, so distinct counters are authenticated as distinct
      messages. */
  lemma {:induction false} BigEndianValue(counter: nat, n: nat)
    requires counter < Scale(1, 8 * n)
    ensures |BigEndian(counter, n)| == n && Value(BigEndian(counter, n)) == counter
    decreases n
  {
    if n > 0 {
      assert Scale(1, 8 * n) == 256 * Scale(1, 8 * (n - 1)) by {
        ScaleByte(1, 8 * (n - 1));
      }
      BigEndianValue(counter / 256, n - 1);
      assert BigEndian(counter, n)[..n - 1] == BigEndian(counter / 256, n - 1);
    }
  }

  /** The code of a counter is the one section 5.3 of RFC 4226 defines. */
  lemma HotpIsRfc4226(hmac: Hmac, key: seq<Byte>, counter: int)
    requires IsCounter(counter)
    ensures var digest := hmac(key, BigEndian(counter, 8));
      var offset := digest[19] % 16;
      && IsSixDigits(Hotp(hmac, key, counter))
      && Denoted(Hotp(hmac, key, counter)) == Value(digest[offset..offset + 4]) % 0x8000_0000 % 1_000_000
  {
    TruncationIsBigEndian(hmac(key, BigEndian(counter, 8)));
    CodeDenotes(Truncate(hmac(key, BigEndian(counter, 8))));
  }

  /** Two numbers share a code exactly when they agree modulo a million. */
  lemma SameCodeExactly(m: nat, n: nat)
    ensures Code(m) == Code(n) <==> m % 1_000_000 == n % 1_000_000
  {
    CodeDenotes(m);
    CodeDenotes(n);
    if m % 1_000_000 == n % 1_000_000 {
      SameNumberSameDigits(Code(m), Code(n));
    }
  }

  // ---- Verification ---------------------------------------------------------------------

  /** The step whose code was given, none, or the range error of a counter that is no unsigned
      64-bit number. */
  datatype Verdict = Accepted(step: int) | NoMatch | RangeError

  function CurrentStep(nowMs: int): int {
    nowMs / STEP_MS
  }

  /** The codes of a key, for the steps that are counters. */
  function CodesOf(hmac: Hmac, key: seq<Byte>): int -> Option<string> {
    (step: int) => if IsCounter(step) then Some(Hotp(hmac, key, step)) else None
  }

  /** The verdict of trying the steps from `step` to `last` in turn. */
  function FirstMatch(codes: int -> Option<string>, step: int, last: int, code: string): Verdict
    decreases last - step
  {
    if step > last then NoMatch
    else if codes(step).None? then RangeError
    else if codes(step).value == code then Accepted(step)
    else FirstMatch(codes, step + 1, last, code)
  }

  /** The verdict on a code, for the codes of a key. */
  function Verified(codes: int -> Option<string>, code: string, nowMs: int): Verdict {
    if !IsSixDigits(code) then NoMatch
    else
      var now := CurrentStep(nowMs);
      FirstMatch(codes, now - WINDOW, now + WINDOW, code)
  }

  method Verify(hmac: Hmac, secret: string, code: string, nowMs: int) returns (verdict: Verdict)
    ensures verdict == Verified(CodesOf(hmac, Decoded(secret)), code, nowMs)
  {
    var key := Decode(secret);
    verdict := VerifyWith(CodesOf(hmac, key), code, nowMs);
  }

  /** The test on the code and the loop over the window. */
  method VerifyWith(codes: int -> Option<string>, code: string, nowMs: int) returns (verdict: Verdict)
    ensures verdict == Verified(codes, code, nowMs)
  {
    if !IsSixDigits(code) {
      return NoMatch;
    }
    var currentStep := CurrentStep(nowMs);
    for delta := -WINDOW to WINDOW + 1
      invariant FirstMatch(codes, currentStep - WINDOW, currentStep + WINDOW, code)
             == FirstMatch(codes, currentStep + delta, currentStep + WINDOW, code)
    {
      var step := currentStep + delta;
      var expected := codes(step);
      if expected.None? {
        return RangeError;
      }
      if expected.value == code {
        return Accepted(step);
      }
    }
    return NoMatch;
  }

  /** No step from `first` up to but without `end` stops the search for `code`. */
  predicate Passed(codes: int -> Option<string>, first: int, end: int, code: string) {
    forall s: int | first <= s < end :: codes(s).Some? && codes(s) != Some(code)
  }

  lemma {:induction false} FirstMatchIsLeast(codes: int -> Option<string>, first: int, last: int, code: string)
    ensures match FirstMatch(codes, first, last, code)
      case Accepted(step) => first <= step <= last && codes(step) == Some(code) && Passed(codes, first, step, code)
      case NoMatch => Passed(codes, first, last + 1, code)
      case RangeError => exists s :: first <= s <= last && codes(s) == None && Passed(codes, first, s, code)
    decreases last - first
  {
    if first <= last && codes(first).Some? && codes(first) != Some(code) {
      FirstMatchIsLeast(codes, first + 1, last, code);
    }
  }

  /** The verdict names the least step in the window whose code was given; it is empty exactly when
      the text is no six digits or no step of the window has that code; and it is the range error
      exactly when, before any match, the window holds a step that is no counter. */
  lemma VerifiedExactly(codes: int -> Option<string>, code: string, nowMs: int)
    ensures var first, last := CurrentStep(nowMs) - WINDOW, CurrentStep(nowMs) + WINDOW;
      match Verified(codes, code, nowMs)
      case Accepted(step) => first <= step <= last && codes(step) == Some(code) && Passed(codes, first, step, code)
      case NoMatch => !IsSixDigits(code) || Passed(codes, first, last + 1, code)
      case RangeError =>
        IsSixDigits(code) && exists s :: first <= s <= last && codes(s) == None && Passed(codes, first, s, code)
  {
    if IsSixDigits(code) {
      FirstMatchIsLeast(codes, CurrentStep(nowMs) - WINDOW, CurrentStep(nowMs) + WINDOW, code);
    }
  }

  /** Whether the whole window around a clock reading holds counters: from the second time step of
      the epoch on, in practice. */
  predicate WindowInRange(nowMs: int) {
    IsCounter(CurrentStep(nowMs) - WINDOW) && IsCounter(CurrentStep(nowMs) + WINDOW)
  }

  /** Steps that are unsigned 64-bit numbers have the code of section 5.3 of RFC 4226, others none. */
  lemma CodeOfStep(hmac: Hmac, key: seq<Byte>, step: int)
    ensures CodesOf(hmac, key)(step).Some? <==> 0 <= step < 0x1_0000_0000_0000_0000
    ensures IsCounter(step) ==> CodesOf(hmac, key)(step) == Some(Hotp(hmac, key, step))
    ensures IsCounter(step) ==> IsSixDigits(CodesOf(hmac, key)(step).value)
  {
    if IsCounter(step) {
      HotpIsRfc4226(hmac, key, step);
    }
  }

  /** There a step is found exactly when some step of the window has the code; there is no range
      error. */
  lemma VerifiedInRange(hmac: Hmac, key: seq<Byte>, code: string, nowMs: int)
    requires WindowInRange(nowMs)
    ensures var codes := CodesOf(hmac, key);
      var verdict := Verified(codes, code, nowMs);
      && !verdict.RangeError?
      && (verdict.Accepted? <==>
            exists s :: CurrentStep(nowMs) - WINDOW <= s <= CurrentStep(nowMs) + WINDOW && codes(s) == Some(code))
  {
    var codes := CodesOf(hmac, key);
    VerifiedExactly(codes, code, nowMs);
    forall s: int | CurrentStep(nowMs) - WINDOW <= s <= CurrentStep(nowMs) + WINDOW
      ensures codes(s).Some? && IsSixDigits(codes(s).value)
    {
      CodeOfStep(hmac, key, s);
    }
  }

  /** On the clock: an accepted step began less than a minute ago or begins within half a minute. */
  lemma AcceptedNearTheClock(codes: int -> Option<string>, code: string, nowMs: int)
    requires Verified(codes, code, nowMs).Accepted?
    ensures var step := Verified(codes, code, nowMs).step; 30_000 * (step - 1) <= nowMs < 30_000 * (step + 2)
  {
    VerifiedExactly(codes, code, nowMs);
    StepOnTheClock(Verified(codes, code, nowMs).step, nowMs);
  }

  lemma StepOnTheClock(step: int, nowMs: int)
    ensures CurrentStep(nowMs) - WINDOW <= step <= CurrentStep(nowMs) + WINDOW
       <==> 30_000 * (step - 1) <= nowMs < 30_000 * (step + 2)
  {}

  predicate IsNearTheClock(step: int, nowMs: int) {
    30_000 * (step - 1) <= nowMs < 30_000 * (step + 2)
  }

  /** And the other way round, from the second step of the epoch on: six digits are accepted exactly when
      a step that near to the clock shows them. */
  lemma AcceptedByTheClock(hmac: Hmac, key: seq<Byte>, code: string, nowMs: int)
    requires 30_000 <= nowMs < 30_000 * 0xFFFF_FFFF_FFFF_FFFF
    ensures var codes := CodesOf(hmac, key);
      Verified(codes, code, nowMs).Accepted? <==>
        exists step :: IsNearTheClock(step, nowMs) && codes(step) == Some(code)
  {
    var codes := CodesOf(hmac, key);
    VerifiedInRange(hmac, key, code, nowMs);
    forall step: int
      ensures IsNearTheClock(step, nowMs) <==> CurrentStep(nowMs) - WINDOW <= step <= CurrentStep(nowMs) + WINDOW
    {
      StepOnTheClock(step, nowMs);
    }
  }

  /** The number of a step that sections 5.3 of RFC 4226 and 4.2 of RFC 6238 define. */
  function StepNumber(hmac: Hmac, key: seq<Byte>, step: nat): nat {
    var digest := hmac(key, BigEndian(step, 8));
    var offset := digest[19] % 16;
    Value(digest[offset..offset + 4]) % 0x8000_0000 % 1_000_000
  }

  lemma CodeIsStepNumber(hmac: Hmac, key: seq<Byte>, step: int, code: string)
    requires 0 <= step < 0x1_0000_0000_0000_0000 && IsSixDigits(code)
    ensures CodesOf(hmac, key)(step) == Some(code) <==> Denoted(code) == StepNumber(hmac, key, step)
  {
    CodeOfStep(hmac, key, step);
    HotpIsRfc4226(hmac, key, step);
    if Denoted(code) == StepNumber(hmac, key, step) {
      SameNumberSameDigits(code, Hotp(hmac, key, step));
    }
  }

  /** What acceptance means: six digits are accepted, from the second step of the epoch on, exactly when
      they denote the number of a step that near to the clock. */
  lemma AcceptedExactly(hmac: Hmac, key: seq<Byte>, code: string, nowMs: int)
    requires 30_000 <= nowMs < 30_000 * 0xFFFF_FFFF_FFFF_FFFF && IsSixDigits(code)
    ensures Verified(CodesOf(hmac, key), code, nowMs).Accepted? <==>
      exists step: nat :: IsNearTheClock(step, nowMs) && Denoted(code) == StepNumber(hmac, key, step)
  {
    AcceptedByTheClock(hmac, key, code, nowMs);
    forall step: int | IsNearTheClock(step, nowMs)
      ensures 0 <= step < 0x1_0000_0000_0000_0000
      ensures step >= 0 && (CodesOf(hmac, key)(step) == Some(code) <==> Denoted(code) == StepNumber(hmac, key, step))
    {
      CodeIsStepNumber(hmac, key, step, code);
    }
  }

  /** Two times of appendix B of RFC 6238: 59 seconds and 1111111109 seconds. */
  lemma StepsOfTheStandard()
    ensures CurrentStep(59_000) == 1 && CurrentStep(1_111_111_109_000) == 37037036
  {}

  /** In the first time step of the epoch any six digits raise the range error, since the step
      before it is no unsigned number. */
  lemma RangeErrorAtTheEpoch(hmac: Hmac, key: seq<Byte>, code: string, nowMs: int)
    requires IsSixDigits(code) && 0 <= nowMs < STEP_MS
    ensures Verified(CodesOf(hmac, key), code, nowMs) == RangeError
  {
    CodeOfStep(hmac, key, -1);
  }

  /** The ways a secret can be typed into an authenticator. */
  predicate IsTyping(typed: string, secret: string) {
    || typed == secret || typed == Lower(secret)
    || typed == FormatSecret(secret) || typed == FormatSecret(Lower(secret))
  }

  lemma TypingKeepsTheKey(typed: string, key: seq<Byte>)
    requires IsTyping(typed, Symbols(Stream(key)))
    ensures Decoded(typed) == key
  {
    DecodeAfterEncode(key);
    DecodeAfterRetyping(key);
  }

  /** An authenticator that holds the same bytes is understood: whichever way its secret was typed,
      its code for a step of the window is accepted, for that step or for an earlier one that has
      the same code. */
  lemma AuthenticatorIsAccepted(hmac: Hmac, key: seq<Byte>, typed: string, step: int, code: string, nowMs: int)
    requires IsTyping(typed, Symbols(Stream(key)))
    requires WindowInRange(nowMs)
    requires CurrentStep(nowMs) - WINDOW <= step <= CurrentStep(nowMs) + WINDOW
    requires CodesOf(hmac, key)(step) == Some(code)
    ensures var verdict := Verified(CodesOf(hmac, Decoded(typed)), code, nowMs);
      verdict.Accepted? && verdict.step <= step && CodesOf(hmac, key)(verdict.step) == Some(code)
  {
    TypingKeepsTheKey(typed, key);
    VerifiedInRange(hmac, key, code, nowMs);
    VerifiedExactly(CodesOf(hmac, key), code, nowMs);
  }
}
