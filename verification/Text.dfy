/** The string operations of JavaScript that the codes are typed through: upper-casing, trimming,
    and deleting the characters a pattern does not match. */
module Text {

  predicate IsAscii(c: char) {
    c < 128 as char
  }

  predicate IsDigit(c: char) {
    '0' <= c <= '9'
  }

  predicate IsUpperLetter(c: char) {
    'A' <= c <= 'Z'
  }

  predicate IsLowerLetter(c: char) {
    'a' <= c <= 'z'
  }

  function Lowered(c: char): char {
    if IsUpperLetter(c) then c + 32 as char else c
  }

  /** The upper case of one character.  Beyond ASCII only the characters whose upper case holds an
      ASCII letter matter here, since every other one is deleted afterwards. */
  function UpperChar(c: char): string {
    if IsLowerLetter(c) then [c - 32 as char]
    else if c == '\U{00DF}' then "SS"
    else if c == '\U{0131}' then "I"
    else if c == '\U{0149}' then "\U{02BC}N"
    else if c == '\U{017F}' then "S"
    else if c == '\U{01F0}' then "J\U{030C}"
    else if c == '\U{1E96}' then "H\U{0331}"
    else if c == '\U{1E97}' then "T\U{0308}"
    else if c == '\U{1E98}' then "W\U{030A}"
    else if c == '\U{1E99}' then "Y\U{030A}"
    else if c == '\U{1E9A}' then "A\U{02BE}"
    else if c == '\U{FB00}' then "FF"
    else if c == '\U{FB01}' then "FI"
    else if c == '\U{FB02}' then "FL"
    else if c == '\U{FB03}' then "FFI"
    else if c == '\U{FB04}' then "FFL"
    else if c == '\U{FB05}' then "ST"
    else if c == '\U{FB06}' then "ST"
    else [c]
  }

  /** `s.toUpperCase()` */
  function Upper(s: string): string {
    if s == "" then "" else UpperChar(s[0]) + Upper(s[1..])
  }

  /** `s.toLowerCase()` on ASCII text. */
  function Lower(s: string): string {
    if s == "" then "" else [Lowered(s[0])] + Lower(s[1..])
  }

  /** `s.replace(/[^...]/g, '')`: the characters that satisfy `keep`, in order. */
  function Keep(s: string, keep: char -> bool): string {
    if s == "" then "" else (if keep(s[0]) then [s[0]] else "") + Keep(s[1..], keep)
  }

  /** White space and line terminators, as `trim` understands them. */
  predicate IsSpace(c: char) {
    || '\t' <= c <= '\r'
    || c == ' ' || c == '\U{00A0}' || c == '\U{1680}'
    || '\U{2000}' <= c <= '\U{200A}'
    || c == '\U{2028}' || c == '\U{2029}' || c == '\U{202F}' || c == '\U{205F}'
    || c == '\U{3000}' || c == '\U{FEFF}'
  }

  function TrimStart(s: string): string {
    if s != "" && IsSpace(s[0]) then TrimStart(s[1..]) else s
  }

  function TrimEnd(s: string): string {
    if s != "" && IsSpace(s[|s| - 1]) then TrimEnd(s[..|s| - 1]) else s
  }

  /** `s.trim()` */
  function Trim(s: string): string {
    TrimEnd(TrimStart(s))
  }

  lemma {:induction false} UpperConcat(s: string, t: string)
    ensures Upper(s + t) == Upper(s) + Upper(t)
  {
    if s == "" {
      assert s + t == t;
    } else {
      assert (s + t)[1..] == s[1..] + t;
      UpperConcat(s[1..], t);
    }
  }

  lemma {:induction false} KeepConcat(s: string, t: string, keep: char -> bool)
    ensures Keep(s + t, keep) == Keep(s, keep) + Keep(t, keep)
  {
    if s == "" {
      assert s + t == t;
    } else {
      assert (s + t)[1..] == s[1..] + t;
      KeepConcat(s[1..], t, keep);
      var head := if keep(s[0]) then [s[0]] else "";
      assert head + (Keep(s[1..], keep) + Keep(t, keep)) == head + Keep(s[1..], keep) + Keep(t, keep);
    }
  }

  /** What is kept satisfies the test. */
  lemma {:induction false} KeepAll(s: string, keep: char -> bool)
    ensures forall c <- Keep(s, keep) :: keep(c)
  {
    if s != "" {
      KeepAll(s[1..], keep);
    }
  }

  lemma {:induction false} KeepNothingDropped(s: string, keep: char -> bool)
    requires forall c <- s :: keep(c)
    ensures Keep(s, keep) == s
  {
    if s != "" {
      KeepNothingDropped(s[1..], keep);
    }
  }

  lemma {:induction false} KeepNothing(s: string, keep: char -> bool)
    requires forall c <- s :: !keep(c)
    ensures Keep(s, keep) == ""
  {
    if s != "" {
      KeepNothing(s[1..], keep);
    }
  }

  /** On upper-case ASCII, digits and punctuation, upper-casing changes nothing. */
  lemma {:induction false} UpperFixed(s: string)
    requires forall c <- s :: UpperChar(c) == [c]
    ensures Upper(s) == s
  {
    if s != "" {
      UpperFixed(s[1..]);
    }
  }

  lemma UpperLowered(c: char)
    requires IsAscii(c)
    ensures Upper([Lowered(c)]) == Upper([c])
  {
    assert UpperChar(Lowered(c)) == UpperChar(c);
  }
}
