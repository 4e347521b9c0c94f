/** The backup codes of the second factor: how they are made and what typing does to them. */
module BackupCodes {
  import opened Text

  const BACKUP_CODES_COUNT := 8
  const BACKUP_CODE_ALPHABET := "ABCDEFGHJKMNPQRSTUVWXYZ23456789"

  /** `randomInt(BACKUP_CODE_ALPHABET.length)` */
  type Pick = n: nat | n < 31

  function SymbolOf(n: Pick): char {
    BACKUP_CODE_ALPHABET[n]
  }

  function Block(pick: nat -> Pick, first: nat): string {
    [SymbolOf(pick(first)), SymbolOf(pick(first + 1)), SymbolOf(pick(first + 2)), SymbolOf(pick(first + 3))]
  }

  /** `generateBackupCode`, for the numbers the generator picks. */
  function GenerateBackupCode(pick: nat -> Pick): string {
    Block(pick, 0) + "-" + Block(pick, 4)
  }

  /** `[A-Z0-9]` */
  predicate IsCodeChar(c: char) {
    IsUpperLetter(c) || IsDigit(c)
  }

  /** An upper-casing of single characters: `UpperChar`, or any other that deals with the characters
      beyond ASCII as Unicode does. */
  type Upcase = char -> string

  /** `s.toUpperCase()` */
  function UpperWith(s: string, up: Upcase): string {
    if s == "" then "" else up(s[0]) + UpperWith(s[1..], up)
  }

  /** `raw.toUpperCase().replace(/[^A-Z0-9]/g, '')` */
  function Clean(raw: string, up: Upcase): string {
    Keep(UpperWith(raw, up), IsCodeChar)
  }

  /** `normalizeBackupCode` */
  function Normalize(raw: string, up: Upcase): string {
    var clean := Clean(raw, up);
    if |clean| == 8 then clean[..4] + "-" + clean[4..] else UpperWith(Trim(raw), up)
  }

  function NormalizeBackupCode(raw: string): string {
    Normalize(raw, UpperChar)
  }

  /** What Unicode promises of upper-casing: it does on ASCII what one expects, keeps white space, makes
      none of anything else, and twice is once. */
  predicate Upcases(up: Upcase, c: char) {
    && (IsCodeChar(c) || c == '-' || IsSpace(c) ==> up(c) == [c])
    && (IsLowerLetter(c) ==> up(c) == [c - 32 as char])
    && (!IsSpace(c) ==> up(c) != "" && !IsSpace(up(c)[0]) && !IsSpace(up(c)[|up(c)| - 1]))
    && UpperWith(up(c), up) == up(c)
  }

  ghost predicate IsUpperCasing(up: Upcase) {
    forall c: char :: Upcases(up, c)
  }

  // ---- The format -----------------------------------------------------------------------

  /** Two blocks of four capitals or digits with a dash between them. */
  predicate IsFormatted(s: string) {
    && |s| == 9 && s[4] == '-'
    && forall i | 0 <= i < 9 && i != 4 :: IsCodeChar(s[i])
  }

  /** The characters that are easily taken for one another. */
  predicate IsAmbiguous(c: char) {
    c == '0' || c == 'O' || c == '1' || c == 'I' || c == 'L'
  }

  /** What is issued: every capital and digit but the ambiguous ones. */
  predicate IsBackupCode(s: string) {
    IsFormatted(s) && forall i | 0 <= i < 9 :: !IsAmbiguous(s[i])
  }

  lemma SymbolsAreUnambiguous(n: Pick)
    ensures IsCodeChar(SymbolOf(n)) && !IsAmbiguous(SymbolOf(n))
  {}

  function PickOf(c: char): (n: Pick)
    requires IsCodeChar(c) && !IsAmbiguous(c)
    ensures SymbolOf(n) == c
  {
    if IsDigit(c) then 23 + (c as int - '2' as int)
    else if c < 'I' then c as int - 'A' as int
    else if c < 'L' then c as int - 'A' as int - 1
    else if c < 'O' then c as int - 'A' as int - 2
    else c as int - 'A' as int - 3
  }

  /** The picks that make a code. */
  function PicksOf(s: string): nat -> Pick
    requires IsBackupCode(s)
  {
    var picks: seq<Pick> :=
      [PickOf(s[0]), PickOf(s[1]), PickOf(s[2]), PickOf(s[3]), PickOf(s[5]), PickOf(s[6]), PickOf(s[7]), PickOf(s[8])];
    (k: nat) => if k < 8 then picks[k] else 0
  }

  /** What is generated is a backup code, and every backup code can be generated. */
  lemma GeneratedCodes(pick: nat -> Pick)
    ensures IsBackupCode(GenerateBackupCode(pick))
  {
    BlockIsUnambiguous(pick, 0);
    BlockIsUnambiguous(pick, 4);
    TwoBlocks(Block(pick, 0), Block(pick, 4));
  }

  predicate IsUnambiguous(s: string) {
    forall c <- s :: IsCodeChar(c) && !IsAmbiguous(c)
  }

  lemma BlockIsUnambiguous(pick: nat -> Pick, first: nat)
    ensures IsUnambiguous(Block(pick, first))
  {
    SymbolsAreUnambiguous(pick(first));
    SymbolsAreUnambiguous(pick(first + 1));
    SymbolsAreUnambiguous(pick(first + 2));
    SymbolsAreUnambiguous(pick(first + 3));
  }

  lemma TwoBlocks(a: string, b: string)
    requires |a| == |b| == 4 && IsUnambiguous(a) && IsUnambiguous(b)
    ensures IsBackupCode(a + "-" + b)
  {
    var s := a + "-" + b;
    forall i | 0 <= i < 9 && i != 4
      ensures IsCodeChar(s[i]) && !IsAmbiguous(s[i])
    {
      assert s[i] == if i < 4 then a[i] else b[i - 5];
    }
  }

  lemma AnyBackupCodeIsGenerated(s: string)
    requires IsBackupCode(s)
    ensures GenerateBackupCode(PicksOf(s)) == s
  {
    forall k: nat | k < 8
      ensures SymbolOf(PicksOf(s)(k)) == s[if k < 4 then k else k + 1]
    {
      PickSpells(s, k);
    }
    BlockSpells(PicksOf(s), 0, s[..4]);
    BlockSpells(PicksOf(s), 4, s[5..]);
  }

  lemma PickSpells(s: string, k: nat)
    requires IsBackupCode(s) && k < 8
    ensures SymbolOf(PicksOf(s)(k)) == s[if k < 4 then k else k + 1]
  {
    assert PicksOf(s)(k) == PickOf(s[if k < 4 then k else k + 1]);
  }

  lemma BlockSpells(pick: nat -> Pick, first: nat, t: string)
    requires |t| == 4 && forall i: nat | i < 4 :: SymbolOf(pick(first + i)) == t[i]
    ensures Block(pick, first) == t
  {}

  // ---- Normalising ----------------------------------------------------------------------

  lemma {:induction false} UpperWithConcat(s: string, t: string, up: Upcase)
    ensures UpperWith(s + t, up) == UpperWith(s, up) + UpperWith(t, up)
  {
    if s == "" {
      assert s + t == t;
    } else {
      assert (s + t)[1..] == s[1..] + t;
      UpperWithConcat(s[1..], t, up);
    }
  }

  lemma CleanConcat(s: string, t: string, up: Upcase)
    ensures Clean(s + t, up) == Clean(s, up) + Clean(t, up)
  {
    UpperWithConcat(s, t, up);
    KeepConcat(UpperWith(s, up), UpperWith(t, up), IsCodeChar);
  }

  lemma {:induction false} FixedWith(s: string, up: Upcase)
    requires forall c <- s :: up(c) == [c]
    ensures UpperWith(s, up) == s
  {
    if s != "" {
      FixedWith(s[1..], up);
    }
  }

  lemma SpaceIsFixed(c: char)
    requires IsSpace(c) || IsCodeChar(c) || c == '-'
    ensures UpperChar(c) == [c]
  {}

  lemma UpperOfNoSpace(c: char)
    requires !IsSpace(c)
    ensures UpperChar(c) != "" && !IsSpace(UpperChar(c)[0]) && !IsSpace(UpperChar(c)[|UpperChar(c)| - 1])
  {}

  lemma UpperCharTwice(c: char)
    ensures UpperWith(UpperChar(c), UpperChar) == UpperChar(c)
  {
    assert forall i | 0 <= i < |UpperChar(c)| :: UpperChar(UpperChar(c)[i]) == [UpperChar(c)[i]];
    FixedWith(UpperChar(c), UpperChar);
  }

  lemma UpperCharIsUpperCasing()
    ensures IsUpperCasing(UpperChar)
  {
    forall c: char
      ensures Upcases(UpperChar, c)
    {
      UpperCharTwice(c);
      if IsSpace(c) || IsCodeChar(c) || c == '-' {
        SpaceIsFixed(c);
      }
      if !IsSpace(c) {
        UpperOfNoSpace(c);
      }
    }
  }

  lemma CodeCharsAreFixed(s: string, up: Upcase)
    requires IsUpperCasing(up) && forall c <- s :: IsCodeChar(c) || c == '-'
    ensures UpperWith(s, up) == s
  {
    forall c <- s
      ensures up(c) == [c]
    {
      assert Upcases(up, c);
    }
    FixedWith(s, up);
  }

  lemma CodeCharsAreClean(s: string, up: Upcase)
    requires IsUpperCasing(up) && forall c <- s :: IsCodeChar(c)
    ensures Clean(s, up) == s
  {
    CodeCharsAreFixed(s, up);
    KeepNothingDropped(s, IsCodeChar);
  }

  lemma DashIsDropped(up: Upcase)
    requires IsUpperCasing(up)
    ensures Clean("-", up) == ""
  {
    CodeCharsAreFixed("-", up);
    KeepNothing("-", IsCodeChar);
  }

  lemma FormattedParts(s: string, up: Upcase)
    requires IsUpperCasing(up) && IsFormatted(s)
    ensures s == s[..4] + "-" + s[5..]
    ensures Clean(s, up) == s[..4] + s[5..]
  {
    CodeCharsAreClean(s[..4], up);
    CodeCharsAreClean(s[5..], up);
    DashIsDropped(up);
    CleanConcat(s[..4], "-", up);
    CleanConcat(s[..4] + "-", s[5..], up);
  }

  lemma FormattedIsNormal(s: string, up: Upcase)
    requires IsUpperCasing(up) && IsFormatted(s)
    ensures Normalize(s, up) == s
  {
    FormattedParts(s, up);
    var clean := s[..4] + s[5..];
    assert clean[..4] == s[..4] && clean[4..] == s[5..];
  }

  lemma NormalFormIsFormatted(raw: string, up: Upcase)
    requires |Clean(raw, up)| == 8
    ensures IsFormatted(Normalize(raw, up))
  {
    KeepAll(UpperWith(raw, up), IsCodeChar);
    var clean := Clean(raw, up);
    assert forall i | 0 <= i < 8 :: clean[i] in clean;
  }

  lemma {:induction false} UpperTwice(s: string, up: Upcase)
    requires IsUpperCasing(up)
    ensures UpperWith(UpperWith(s, up), up) == UpperWith(s, up)
  {
    if s != "" {
      assert Upcases(up, s[0]);
      UpperTwice(s[1..], up);
      UpperWithConcat(up(s[0]), UpperWith(s[1..], up), up);
    }
  }

  /** No white space at either end. */
  predicate IsTrimmed(s: string) {
    s == "" || (!IsSpace(s[0]) && !IsSpace(s[|s| - 1]))
  }

  lemma {:induction false} TrimStartCuts(s: string) returns (before: string)
    ensures s == before + TrimStart(s) && forall c <- before :: IsSpace(c)
    ensures TrimStart(s) == "" || !IsSpace(TrimStart(s)[0])
  {
    before := "";
    if s != "" && IsSpace(s[0]) {
      var rest := TrimStartCuts(s[1..]);
      before := [s[0]] + rest;
    }
  }

  lemma {:induction false} TrimEndCuts(s: string) returns (after: string)
    ensures s == TrimEnd(s) + after && forall c <- after :: IsSpace(c)
    ensures TrimEnd(s) == "" || !IsSpace(TrimEnd(s)[|TrimEnd(s)| - 1])
  {
    after := "";
    if s != "" && IsSpace(s[|s| - 1]) {
      var rest := TrimEndCuts(s[..|s| - 1]);
      after := rest + [s[|s| - 1]];
    }
  }

  /** Trimming cuts white space off both ends and nothing else. */
  lemma TrimCuts(s: string) returns (before: string, after: string)
    ensures s == before + Trim(s) + after
    ensures forall c <- before + after :: IsSpace(c)
    ensures IsTrimmed(Trim(s))
  {
    before := TrimStartCuts(s);
    after := TrimEndCuts(TrimStart(s));
    var t := Trim(s);
    assert t != "" ==> t[0] == TrimStart(s)[0];
  }

  lemma TrimmedIsFixed(s: string)
    requires IsTrimmed(s)
    ensures Trim(s) == s
  {}

  lemma UpperKeepsTrimmed(s: string, up: Upcase)
    requires IsUpperCasing(up) && IsTrimmed(s)
    ensures IsTrimmed(UpperWith(s, up))
  {
    if s != "" {
      var last := s[|s| - 1];
      assert Upcases(up, s[0]) && Upcases(up, last);
      assert s == s[..|s| - 1] + [last];
      UpperWithConcat(s[..|s| - 1], [last], up);
      assert UpperWith([last], up) == up(last);
    }
  }

  lemma SpaceIsDropped(s: string, up: Upcase)
    requires IsUpperCasing(up) && forall c <- s :: IsSpace(c)
    ensures Clean(s, up) == ""
  {
    forall c <- s
      ensures up(c) == [c] && !IsCodeChar(c)
    {
      assert Upcases(up, c);
    }
    FixedWith(s, up);
    KeepNothing(s, IsCodeChar);
  }

  lemma CleanOfTrimmed(s: string, up: Upcase)
    requires IsUpperCasing(up)
    ensures Clean(Trim(s), up) == Clean(s, up)
  {
    var before, after := TrimCuts(s);
    CleanConcat(before + Trim(s), after, up);
    CleanConcat(before, Trim(s), up);
    SpaceIsDropped(before, up);
    SpaceIsDropped(after, up);
  }

  /** Normalising twice is normalising once, whatever was typed. */
  lemma NormalizeTwice(raw: string, up: Upcase)
    requires IsUpperCasing(up)
    ensures Normalize(Normalize(raw, up), up) == Normalize(raw, up)
  {
    if |Clean(raw, up)| == 8 {
      NormalFormIsFormatted(raw, up);
      FormattedIsNormal(Normalize(raw, up), up);
    } else {
      var t := Trim(raw);
      var _, _ := TrimCuts(raw);
      UpperTwice(t, up);
      UpperKeepsTrimmed(t, up);
      TrimmedIsFixed(UpperWith(t, up));
      CleanOfTrimmed(raw, up);
    }
  }

  lemma {:induction false} UpperGrows(s: string, up: Upcase)
    requires IsUpperCasing(up)
    ensures |UpperWith(s, up)| >= |s|
  {
    if s != "" {
      assert Upcases(up, s[0]);
      UpperGrows(s[1..], up);
    }
  }

  /** What upper-casing leaves as it is holds no small letter. */
  lemma {:induction false} FixedHasNoSmallLetter(s: string, up: Upcase)
    requires IsUpperCasing(up) && UpperWith(s, up) == s
    ensures forall c <- s :: !IsLowerLetter(c)
  {
    if s != "" {
      assert Upcases(up, s[0]);
      UpperGrows(s[1..], up);
      assert |up(s[0])| == 1;
      assert up(s[0]) == [s[0]] && UpperWith(s[1..], up) == s[1..];
      FixedHasNoSmallLetter(s[1..], up);
    }
  }

  /** Whatever was typed, the normal form has no small letter and no white space at its ends. */
  lemma NormalFormIsTidy(raw: string, up: Upcase)
    requires IsUpperCasing(up)
    ensures IsTrimmed(Normalize(raw, up)) && forall c <- Normalize(raw, up) :: !IsLowerLetter(c)
  {
    if |Clean(raw, up)| == 8 {
      NormalFormIsFormatted(raw, up);
      FormattedIsTidy(Normalize(raw, up));
    } else {
      var _, _ := TrimCuts(raw);
      UpperKeepsTrimmed(Trim(raw), up);
      UpperTwice(Trim(raw), up);
      FixedHasNoSmallLetter(UpperWith(Trim(raw), up), up);
    }
  }

  lemma FormattedIsTidy(s: string)
    requires IsFormatted(s)
    ensures IsTrimmed(s) && forall c <- s :: !IsLowerLetter(c)
  {}

  // ---- Typing a code --------------------------------------------------------------------

  /** White space and dashes do not matter. */
  predicate IsMark(c: char) {
    !IsSpace(c) && c != '-'
  }

  /** `typed` reads like `code`: the same letters and digits in any case, with white space and dashes
      anywhere. */
  predicate IsRetyping(typed: string, code: string) {
    Lower(Keep(typed, IsMark)) == Lower(Keep(code, IsMark))
  }

  predicate IsLowerCode(s: string) {
    forall c <- s :: IsLowerLetter(c) || IsDigit(c)
  }

  /** The capitals of lower-case letters; digits stay. */
  function Capitals(s: string): string {
    if s == "" then "" else [if IsLowerLetter(s[0]) then s[0] - 32 as char else s[0]] + Capitals(s[1..])
  }

  lemma {:induction false} CleanIsCapitalMarks(s: string, up: Upcase)
    requires IsUpperCasing(up) && IsLowerCode(Lower(Keep(s, IsMark)))
    ensures Clean(s, up) == Capitals(Lower(Keep(s, IsMark)))
  {
    if s != "" {
      var c, rest := s[0], Keep(s[1..], IsMark);
      assert s == [c] + s[1..];
      CleanConcat([c], s[1..], up);
      if IsMark(c) {
        assert Keep(s, IsMark) == [c] + rest;
        assert ([c] + rest)[1..] == rest;
        assert Lower(Keep(s, IsMark)) == [Lowered(c)] + Lower(rest);
        CleanIsCapitalMarks(s[1..], up);
        OneMarkIsKept(c, up);
        assert ([Lowered(c)] + Lower(rest))[1..] == Lower(rest);
      } else {
        assert Keep(s, IsMark) == rest;
        CleanIsCapitalMarks(s[1..], up);
        OneSeparatorIsDropped(c, up);
      }
    }
  }

  lemma OneMarkIsKept(c: char, up: Upcase)
    requires IsUpperCasing(up) && (IsLowerLetter(Lowered(c)) || IsDigit(Lowered(c)))
    ensures Clean([c], up) == Capitals([Lowered(c)])
  {
    assert Upcases(up, c);
    var d := if IsLowerLetter(c) then c - 32 as char else c;
    assert UpperWith([c], up) == [d];
    KeepNothingDropped([d], IsCodeChar);
    assert Capitals([Lowered(c)]) == [d];
  }

  lemma OneSeparatorIsDropped(c: char, up: Upcase)
    requires IsUpperCasing(up) && !IsMark(c)
    ensures Clean([c], up) == ""
  {
    DashIsDropped(up);
    if c != '-' {
      SpaceIsDropped([c], up);
    }
  }

  lemma CodeCharsAreMarks(s: string)
    requires forall c <- s :: IsCodeChar(c)
    ensures Keep(s, IsMark) == s
  {
    KeepNothingDropped(s, IsMark);
  }

  lemma MarksOfFormatted(code: string)
    requires IsFormatted(code)
    ensures |Keep(code, IsMark)| == 8
    ensures IsLowerCode(Lower(Keep(code, IsMark)))
  {
    var a, b := code[..4], code[5..];
    assert code == a + "-" + b;
    KeepConcat(a + "-", b, IsMark);
    KeepConcat(a, "-", IsMark);
    KeepNothing("-", IsMark);
    CodeCharsAreMarks(a);
    CodeCharsAreMarks(b);
    assert Keep(code, IsMark) == a + b;
    LowerOfCodeChars(a + b);
  }

  lemma {:induction false} LowerOfCodeChars(s: string)
    requires forall c <- s :: IsCodeChar(c)
    ensures IsLowerCode(Lower(s))
  {
    if s != "" {
      LowerOfCodeChars(s[1..]);
      assert s[0] in s;
      assert Lower(s) == [Lowered(s[0])] + Lower(s[1..]);
      assert IsLowerLetter(Lowered(s[0])) || IsDigit(Lowered(s[0]));
    }
  }

  /** However a code is typed, it normalises to the code. */
  lemma RetypingNormalizes(typed: string, code: string, up: Upcase)
    requires IsUpperCasing(up) && IsFormatted(code) && IsRetyping(typed, code)
    ensures Normalize(typed, up) == code
  {
    MarksOfFormatted(code);
    CleanIsCapitalMarks(typed, up);
    CleanIsCapitalMarks(code, up);
    FormattedParts(code, up);
    FormattedIsNormal(code, up);
  }

  lemma {:induction false} LowerLength(s: string)
    ensures |Lower(s)| == |s|
  {
    if s != "" {
      LowerLength(s[1..]);
    }
  }

  lemma {:induction false} KeepLength(s: string, keep: char -> bool)
    ensures |Keep(s, keep)| <= |s|
  {
    if s != "" {
      KeepLength(s[1..], keep);
    }
  }

  /** Trimming what was typed changes none of this, and what is left is too long to be taken for six
      digits. */
  lemma RetypingTrimmed(typed: string, code: string)
    requires IsFormatted(code) && IsRetyping(typed, code)
    ensures IsRetyping(Trim(typed), code) && |Trim(typed)| >= 8
  {
    var before, after := TrimCuts(typed);
    KeepConcat(before + Trim(typed), after, IsMark);
    KeepConcat(before, Trim(typed), IsMark);
    KeepNothing(before, IsMark);
    KeepNothing(after, IsMark);
    assert Keep(typed, IsMark) == Keep(Trim(typed), IsMark);
    MarksOfFormatted(code);
    LowerLength(Keep(code, IsMark));
    LowerLength(Keep(Trim(typed), IsMark));
    KeepLength(Trim(typed), IsMark);
  }
}
