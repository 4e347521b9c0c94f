/** Base32 without padding characters, as the TOTP secrets are written down.

    The specification works on bit streams: `Stream` lays out bytes, `SymbolStream` lays out
    symbols, `Symbols` cuts a stream into groups of five (section 6 of RFC 4648) and `Octets`
    into groups of eight.  The two loops are proved against it, and the round trips are proved
    about it. */
module Base32 {
  import opened Int32
  import opened Text

  type Byte = b: nat | b < 256

  const BASE32_ALPHABET := "ABCDEFGHIJKLMNOPQRSTUVWXYZ234567"

  predicate IsSymbol(c: char) {
    'A' <= c <= 'Z' || '2' <= c <= '7'
  }

  /** The number of a symbol. */
  function IndexOf(c: char): nat
    requires IsSymbol(c)
  {
    if c <= '7' then 26 + (c as int - '2' as int) else c as int - 'A' as int
  }

  predicate IsSymbolString(s: string) {
    forall c <- s :: IsSymbol(c)
  }

  /** The symbol of a number. */
  function SymbolAt(i: nat): (c: char)
    requires i < 32
    ensures IsSymbol(c) && IndexOf(c) == i
  {
    if i < 26 then ('A' as int + i) as char else ('2' as int + (i - 26)) as char
  }

  lemma SymbolsAreTheAlphabet()
    ensures |BASE32_ALPHABET| == 32
    ensures forall i | 0 <= i < 32 :: BASE32_ALPHABET[i] == SymbolAt(i)
  {}

  lemma IndexOfSymbol(c: char)
    requires IsSymbol(c)
    ensures IndexOf(c) < 32 && SymbolAt(IndexOf(c)) == c
  {}

  /** `BASE32_ALPHABET[i]` */
  method SymbolInAlphabet(i: nat) returns (c: char)
    requires i < 32
    ensures c == SymbolAt(i)
  {
    SymbolsAreTheAlphabet();
    c := BASE32_ALPHABET[i];
  }

  /** `BASE32_ALPHABET.indexOf(c)`: the first position that holds the character. */
  method IndexInAlphabet(c: char) returns (i: nat)
    requires IsSymbol(c)
    ensures i == IndexOf(c)
  {
    SymbolsAreTheAlphabet();
    IndexOfSymbol(c);
    i := 0;
    while BASE32_ALPHABET[i] != c
      invariant i <= IndexOf(c)
      decreases 32 - i
    {
      i := i + 1;
    }
  }

  // ---- Bit streams ----------------------------------------------------------------------

  /** The `n` low bits of `v`, most significant first. */
  function LowBits(v: nat, n: nat): (s: seq<bool>)
    ensures |s| == n
    decreases n, v
  {
    if n == 0 then [] else LowBits(v / 2, n - 1) + [v % 2 == 1]
  }

  /** The number a bit string denotes. */
  function Number(bits: seq<bool>): nat {
    if bits == [] then 0
    else 2 * Number(bits[..|bits| - 1]) + (if bits[|bits| - 1] then 1 else 0)
  }

  function Zeros(n: nat): (s: seq<bool>)
    ensures |s| == n && forall i | 0 <= i < n :: !s[i]
  {
    seq(n, _ => false)
  }

  function Stream(bytes: seq<Byte>): (s: seq<bool>)
    ensures |s| == 8 * |bytes|
  {
    if bytes == [] then [] else LowBits(bytes[0], 8) + Stream(bytes[1..])
  }

  function SymbolStream(s: string): (r: seq<bool>)
    requires IsSymbolString(s)
    ensures |r| == 5 * |s|
  {
    if s == "" then [] else LowBits(IndexOf(s[0]), 5) + SymbolStream(s[1..])
  }

  /** The symbol of a group of five bits. */
  function SymbolOf(group: seq<bool>): (c: char)
    requires |group| == 5
    ensures IsSymbol(c) && LowBits(IndexOf(c), 5) == group
  {
    NumberBelow(group);
    Powers();
    LowBitsOfNumber(group);
    SymbolAt(Number(group))
  }

  /** The byte of a group of eight bits. */
  function OctetOf(group: seq<bool>): (b: Byte)
    requires |group| == 8
    ensures LowBits(b, 8) == group
  {
    NumberBelow(group);
    Powers();
    LowBitsOfNumber(group);
    Number(group)
  }

  /** Section 6 of RFC 4648: groups of five bits, the last one filled up with zeros. */
  function Symbols(bits: seq<bool>): string {
    if bits == [] then ""
    else if |bits| < 5 then [SymbolOf(bits + Zeros(5 - |bits|))]
    else [SymbolOf(bits[..5])] + Symbols(bits[5..])
  }

  /** Groups of eight bits; an incomplete last group is dropped. */
  function Octets(bits: seq<bool>): seq<Byte> {
    if |bits| < 8 then [] else [OctetOf(bits[..8])] + Octets(bits[8..])
  }

  lemma Powers()
    ensures Scale(1, 5) == 32 && Scale(1, 8) == 256 && Scale(1, 16) == 0x1_0000
  {
    assert Scale(1, 4) == 16;
    assert Scale(1, 8) == 256;
    assert Scale(1, 12) == 0x1000;
  }

  lemma {:induction false} NumberBelow(bits: seq<bool>)
    ensures Number(bits) < Scale(1, |bits|)
  {
    if bits != [] {
      NumberBelow(bits[..|bits| - 1]);
    }
  }

  lemma {:induction false} LowBitsOfNumber(bits: seq<bool>)
    ensures LowBits(Number(bits), |bits|) == bits
  {
    if bits != [] {
      LowBitsOfNumber(bits[..|bits| - 1]);
    }
  }

  lemma {:induction false} NumberOfLowBits(v: nat, n: nat)
    requires v < Scale(1, n)
    ensures Number(LowBits(v, n)) == v
    decreases n
  {
    if n > 0 {
      NumberOfLowBits(v / 2, n - 1);
      assert LowBits(v, n)[..n - 1] == LowBits(v / 2, n - 1);
    }
  }

  lemma {:induction false} LowBitsAt(v: nat, n: nat, j: nat)
    requires j < n
    ensures LowBits(v, n)[j] == Bit(v, n - 1 - j)
    decreases n
  {
    if j < n - 1 {
      LowBitsAt(v / 2, n - 1, j);
    }
  }

  lemma {:induction false} StreamConcat(a: seq<Byte>, b: seq<Byte>)
    ensures Stream(a + b) == Stream(a) + Stream(b)
  {
    if a == [] {
      assert a + b == b;
    } else {
      assert (a + b)[1..] == a[1..] + b;
      StreamConcat(a[1..], b);
    }
  }

  lemma {:induction false} SymbolStreamConcat(a: string, b: string)
    requires IsSymbolString(a) && IsSymbolString(b)
    ensures SymbolStream(a + b) == SymbolStream(a) + SymbolStream(b)
  {
    if a == "" {
      assert a + b == b;
    } else {
      assert (a + b)[1..] == a[1..] + b;
      SymbolStreamConcat(a[1..], b);
    }
  }

  // ---- The two groupings undo each other ------------------------------------------------

  /** The symbols of a stream spell it, filled up with fewer than five zeros. */
  lemma {:induction false} StreamOfSymbols(bits: seq<bool>)
    ensures IsSymbolString(Symbols(bits))
    ensures |bits| <= 5 * |Symbols(bits)| < |bits| + 5
    ensures SymbolStream(Symbols(bits)) == bits + Zeros(5 * |Symbols(bits)| - |bits|)
  {
    if bits == [] {
    } else if |bits| < 5 {
      StreamOfFirstSymbol(bits + Zeros(5 - |bits|), "");
    } else {
      StreamOfSymbols(bits[5..]);
      StreamOfFirstSymbol(bits[..5], Symbols(bits[5..]));
      assert bits == bits[..5] + bits[5..];
    }
  }

  lemma StreamOfFirstSymbol(group: seq<bool>, rest: string)
    requires |group| == 5 && IsSymbolString(rest)
    ensures IsSymbolString([SymbolOf(group)] + rest)
    ensures SymbolStream([SymbolOf(group)] + rest) == group + SymbolStream(rest)
  {
    assert ([SymbolOf(group)] + rest)[1..] == rest;
  }

  lemma {:induction false} SymbolsOfStream(s: string)
    requires IsSymbolString(s)
    ensures Symbols(SymbolStream(s)) == s
  {
    if s != "" {
      var r := SymbolStream(s);
      assert r[..5] == LowBits(IndexOf(s[0]), 5);
      assert r[5..] == SymbolStream(s[1..]);
      SameSymbol(SymbolOf(r[..5]), s[0]);
      SymbolsOfStream(s[1..]);
    }
  }

  lemma SameSymbols(s: string, t: string)
    requires IsSymbolString(s) && IsSymbolString(t)
    requires SymbolStream(s) == SymbolStream(t)
    ensures s == t
  {
    SymbolsOfStream(s);
    SymbolsOfStream(t);
  }

  lemma SameSymbol(c: char, d: char)
    requires IsSymbol(c) && IsSymbol(d)
    requires LowBits(IndexOf(c), 5) == LowBits(IndexOf(d), 5)
    ensures c == d
  {
    IndexOfSymbol(c);
    IndexOfSymbol(d);
    Powers();
    NumberOfLowBits(IndexOf(c), 5);
    NumberOfLowBits(IndexOf(d), 5);
  }

  lemma {:induction false} StreamOfOctets(bits: seq<bool>)
    ensures 8 * |Octets(bits)| <= |bits| < 8 * |Octets(bits)| + 8
    ensures Stream(Octets(bits)) == bits[..8 * |Octets(bits)|]
  {
    if |bits| >= 8 {
      StreamOfOctets(bits[8..]);
    }
  }

  lemma {:induction false} OctetsOfStream(bytes: seq<Byte>, tail: seq<bool>)
    requires |tail| < 8
    ensures Octets(Stream(bytes) + tail) == bytes
  {
    if bytes != [] {
      var r := Stream(bytes) + tail;
      assert r[..8] == LowBits(bytes[0], 8);
      assert r[8..] == Stream(bytes[1..]) + tail;
      SameOctet(OctetOf(r[..8]), bytes[0]);
      OctetsOfStream(bytes[1..], tail);
    }
  }

  lemma SameOctet(a: Byte, b: Byte)
    requires LowBits(a, 8) == LowBits(b, 8)
    ensures a == b
  {
    Powers();
    NumberOfLowBits(a, 8);
    NumberOfLowBits(b, 8);
  }

  // ---- What one turn of a loop does to the pending bits ---------------------------------

  /** `((value << m) | x) & 0xffff` appends the `m` bits of `x` to the pending bits, whatever
      stale bits `value` still holds above them. */
  lemma PendingAfterPush(value: nat, n: nat, x: nat, m: nat)
    requires value < 0x1_0000 && m <= 8 && n + m <= 16 && x < Scale(1, m)
    ensures 0 <= ShiftLeft(value, m)
    ensures And(Or(ShiftLeft(value, m), x), 0xffff) < 0x1_0000
    ensures LowBits(And(Or(ShiftLeft(value, m), x), 0xffff), n + m) == LowBits(value, n) + LowBits(x, m)
  {
    ShiftLeftSmall(value, m);
    Powers();
    var u := Or(ShiftLeft(value, m), x);
    var w := And(u, 0xffff);
    AndBound(u, 0xffff, 16);
    forall j: nat | j < n + m
      ensures LowBits(w, n + m)[j] == (LowBits(value, n) + LowBits(x, m))[j]
    {
      var i := n + m - 1 - j;
      LowBitsAt(w, n + m, j);
      BitAnd(u, 0xffff, i);
      BitMask(16, i);
      BitOr(ShiftLeft(value, m), x, i);
      BitScale(value, m, i);
      if j < n {
        LowBitsAt(value, n, j);
        BitAbove(x, m, i);
      } else {
        LowBitsAt(x, m, j - n);
      }
    }
  }

  lemma ShiftLeftSmall(v: nat, k: nat)
    requires v < 0x1_0000 && k <= 8
    ensures ShiftLeft(v, k) == Scale(v, k)
  {
    ScaleMonotone(v, k, 8);
    assert Scale(v, 4) == 2 * Scale(v, 3) == 4 * Scale(v, 2) == 8 * Scale(v, 1) == 16 * v;
    assert Scale(v, 8) == 2 * Scale(v, 7) == 4 * Scale(v, 6) == 8 * Scale(v, 5) == 256 * v;
    ShiftLeftInRange(v, k);
  }

  lemma {:induction false} ScaleMonotone(v: nat, k: nat, n: nat)
    requires k <= n
    ensures Scale(v, k) <= Scale(v, n)
    decreases n
  {
    if k < n {
      ScaleMonotone(v, k, n - 1);
    }
  }

  /** `(value >>> (n - m)) & mask` takes the top `m` of the `n` pending bits. */
  lemma PendingAfterTake(value: nat, n: nat, m: nat)
    requires m <= n
    ensures LowBits(value, n) == LowBits(And(ShiftRight(value, n - m), Scale(1, m) - 1), m) + LowBits(value, n - m)
  {
    var u := ShiftRight(value, n - m);
    forall j: nat | j < n
      ensures LowBits(value, n)[j] == (LowBits(And(u, Scale(1, m) - 1), m) + LowBits(value, n - m))[j]
    {
      LowBitsAt(value, n, j);
      if j < m {
        LowBitsAt(And(u, Scale(1, m) - 1), m, j);
        BitAnd(u, Scale(1, m) - 1, m - 1 - j);
        BitMask(m, m - 1 - j);
        BitShiftRight(value, n - m, m - 1 - j);
      } else {
        LowBitsAt(value, n - m, j - m);
      }
    }
  }

  /** `(value << (5 - n)) & 31` is the last `n` pending bits, filled up with zeros. */
  lemma PendingFilled(value: nat, n: nat)
    requires value < 0x1_0000 && n <= 5
    ensures 0 <= ShiftLeft(value, 5 - n)
    ensures LowBits(And(ShiftLeft(value, 5 - n), 31), 5) == LowBits(value, n) + Zeros(5 - n)
  {
    ShiftLeftSmall(value, 5 - n);
    Powers();
    var u := ShiftLeft(value, 5 - n);
    forall j: nat | j < 5
      ensures LowBits(And(u, 31), 5)[j] == (LowBits(value, n) + Zeros(5 - n))[j]
    {
      LowBitsAt(And(u, 31), 5, j);
      BitAnd(u, 31, 4 - j);
      BitMask(5, 4 - j);
      BitScale(value, 5 - n, 4 - j);
      if j < n {
        LowBitsAt(value, n, j);
      }
    }
  }

  // ---- The two loops --------------------------------------------------------------------

  /** What is left to send after `bits` more bits went into the accumulator. */
  ghost predicate Pending(sent: seq<bool>, value: nat, bits: nat, all: seq<bool>) {
    value < 0x1_0000 && sent + LowBits(value, bits) == all
  }

  lemma Associate(a: seq<bool>, b: seq<bool>, c: seq<bool>)
    ensures a + (b + c) == a + b + c
  {}

  /** A push into the accumulator appends to the stream. */
  lemma PendingPushed(sent: seq<bool>, value: nat, bits: nat, all: seq<bool>, x: nat, m: nat)
    requires Pending(sent, value, bits, all)
    requires m <= 8 && bits + m <= 16 && x < Scale(1, m)
    ensures 0 <= ShiftLeft(value, m)
    ensures Pending(sent, And(Or(ShiftLeft(value, m), x), 0xffff), bits + m, all + LowBits(x, m))
  {
    PendingAfterPush(value, bits, x, m);
    Associate(sent, LowBits(value, bits), LowBits(x, m));
  }

  /** Taking `m` bits out of the accumulator sends them. */
  lemma PendingTaken(sent: seq<bool>, value: nat, bits: nat, all: seq<bool>, m: nat)
    requires Pending(sent, value, bits, all) && m <= bits
    ensures And(ShiftRight(value, bits - m), Scale(1, m) - 1) < Scale(1, m)
    ensures Pending(sent + LowBits(And(ShiftRight(value, bits - m), Scale(1, m) - 1), m), value, bits - m, all)
  {
    AndBound(ShiftRight(value, bits - m), Scale(1, m) - 1, m);
    PendingAfterTake(value, bits, m);
    var taken := LowBits(And(ShiftRight(value, bits - m), Scale(1, m) - 1), m);
    Associate(sent, taken, LowBits(value, bits - m));
  }

  /** `base32Encode`: the symbols of the byte stream. */
  method Encode(bytes: seq<Byte>) returns (output: string)
    ensures output == Symbols(Stream(bytes))
  {
    var bits, value: nat := 0, 0;
    output := "";
    for k := 0 to |bytes|
      invariant bits < 5 && IsSymbolString(output)
      invariant Pending(SymbolStream(output), value, bits, Stream(bytes[..k]))
    {
      StreamStep(bytes, k);
      Powers();
      PendingPushed(SymbolStream(output), value, bits, Stream(bytes[..k]), bytes[k], 8);
      value := And(Or(ShiftLeft(value, 8), bytes[k]), 0xffff);
      bits := bits + 8;
      while bits >= 5
        invariant bits <= 12 && IsSymbolString(output)
        invariant Pending(SymbolStream(output), value, bits, Stream(bytes[..k + 1]))
      {
        output := TakeSymbol(output, value, bits, Stream(bytes[..k + 1]));
        bits := bits - 5;
      }
    }
    assert bytes[..|bytes|] == bytes;
    output := Flush(output, value, bits, Stream(bytes));
  }

  /** One turn of the inner loop of the encoder. */
  method TakeSymbol(output: string, value: nat, bits: nat, ghost all: seq<bool>) returns (next: string)
    requires 5 <= bits && IsSymbolString(output)
    requires Pending(SymbolStream(output), value, bits, all)
    ensures IsSymbolString(next) && Pending(SymbolStream(next), value, bits - 5, all)
  {
    Powers();
    PendingTaken(SymbolStream(output), value, bits, all, 5);
    var symbol := SymbolInAlphabet(And(ShiftRight(value, bits - 5), 31));
    SymbolStreamConcat(output, [symbol]);
    next := output + [symbol];
  }

  /** The end of the encoder: the bits that do not fill a symbol. */
  method Flush(output: string, value: nat, bits: nat, ghost all: seq<bool>) returns (next: string)
    requires bits < 5 && IsSymbolString(output)
    requires Pending(SymbolStream(output), value, bits, all)
    ensures next == Symbols(all)
  {
    if bits > 0 {
      PendingFilled(value, bits);
      Powers();
      AndBound(ShiftLeft(value, 5 - bits), 31, 5);
      var symbol := SymbolInAlphabet(And(ShiftLeft(value, 5 - bits), 31));
      SymbolStreamConcat(output, [symbol]);
      next := output + [symbol];
      assert SymbolStream(next) == all + Zeros(5 - bits);
    } else {
      next := output;
      assert SymbolStream(next) == all + Zeros(0);
    }
    FilledStreamIsSymbols(next, all);
  }

  lemma StreamStep(bytes: seq<Byte>, k: nat)
    requires k < |bytes|
    ensures Stream(bytes[..k + 1]) == Stream(bytes[..k]) + LowBits(bytes[k], 8)
  {
    assert bytes[..k + 1] == bytes[..k] + [bytes[k]];
    StreamConcat(bytes[..k], [bytes[k]]);
  }

  lemma SymbolStreamStep(s: string, k: nat)
    requires k < |s| && IsSymbolString(s)
    ensures SymbolStream(s[..k + 1]) == SymbolStream(s[..k]) + LowBits(IndexOf(s[k]), 5)
  {
    assert s[..k + 1] == s[..k] + [s[k]];
    SymbolStreamConcat(s[..k], [s[k]]);
  }

  lemma SameFilling(s: string, t: string, all: seq<bool>, m: nat, n: nat)
    requires IsSymbolString(s) && IsSymbolString(t) && m < 5 && n < 5
    requires SymbolStream(s) == all + Zeros(m) && SymbolStream(t) == all + Zeros(n)
    ensures s == t
  {
    assert |all| + m == 5 * |s| && |all| + n == 5 * |t|;
    SameSymbols(s, t);
  }

  /** Symbols that spell a stream and fewer than five zeros are the symbols of that stream. */
  lemma FilledStreamIsSymbols(s: string, all: seq<bool>)
    requires IsSymbolString(s)
    requires |all| <= 5 * |s| < |all| + 5
    requires SymbolStream(s) == all + Zeros(5 * |s| - |all|)
    ensures s == Symbols(all)
  {
    StreamOfSymbols(all);
    SameFilling(s, Symbols(all), all, 5 * |s| - |all|, 5 * |Symbols(all)| - |all|);
  }

  /** `input.toUpperCase().replace(/=+$/, '').replace(/[^A-Z2-7]/g, '')` */
  function Clean(input: string): string {
    Keep(WithoutPadding(Upper(input)), IsSymbol)
  }

  function WithoutPadding(s: string): string {
    if s != "" && s[|s| - 1] == '=' then WithoutPadding(s[..|s| - 1]) else s
  }

  /** The bytes a text denotes. */
  function Decoded(input: string): seq<Byte> {
    KeepAll(WithoutPadding(Upper(input)), IsSymbol);
    Octets(SymbolStream(Clean(input)))
  }

  /** `base32Decode`: the whole octets of the symbol stream of the cleaned text. */
  method Decode(input: string) returns (out: seq<Byte>)
    ensures out == Decoded(input)
  {
    KeepAll(WithoutPadding(Upper(input)), IsSymbol);
    out := DecodeClean(Clean(input));
  }

  method DecodeClean(clean: string) returns (out: seq<Byte>)
    requires IsSymbolString(clean)
    ensures out == Octets(SymbolStream(clean))
  {
    var bits, value: nat := 0, 0;
    out := [];
    for k := 0 to |clean|
      invariant bits < 8
      invariant Pending(Stream(out), value, bits, SymbolStream(clean[..k]))
    {
      SymbolStreamStep(clean, k);
      IndexOfSymbol(clean[k]);
      Powers();
      var index := IndexInAlphabet(clean[k]);
      PendingPushed(Stream(out), value, bits, SymbolStream(clean[..k]), index, 5);
      value := And(Or(ShiftLeft(value, 5), index), 0xffff);
      bits := bits + 5;
      if bits >= 8 {
        out := TakeOctet(out, value, bits, SymbolStream(clean[..k + 1]));
        bits := bits - 8;
      }
    }
    assert clean[..|clean|] == clean;
    OctetsOfStream(out, LowBits(value, bits));
  }

  /** One octet leaves the accumulator of the decoder. */
  method TakeOctet(out: seq<Byte>, value: nat, bits: nat, ghost all: seq<bool>) returns (next: seq<Byte>)
    requires 8 <= bits
    requires Pending(Stream(out), value, bits, all)
    ensures Pending(Stream(next), value, bits - 8, all)
  {
    Powers();
    PendingTaken(Stream(out), value, bits, all, 8);
    var octet := And(ShiftRight(value, bits - 8), 0xff);
    StreamConcat(out, [octet]);
    next := out + [octet];
  }

  // ---- The encoding is section 6 of RFC 4648 --------------------------------------------

  /** One symbol for every five bits begun, and no padding character. */
  lemma EncodedLength(bytes: seq<Byte>)
    ensures |Symbols(Stream(bytes))| == (8 * |bytes| + 4) / 5
    ensures IsSymbolString(Symbols(Stream(bytes)))
  {
    StreamOfSymbols(Stream(bytes));
  }

  /** Bit `j` of symbol `i` is bit `5 i + j` of the input, most significant first, or zero past
      the end of it. */
  lemma EncodedBits(bytes: seq<Byte>, i: nat, j: nat)
    requires i < |Symbols(Stream(bytes))| && j < 5
    ensures IsSymbol(Symbols(Stream(bytes))[i])
    ensures Bit(IndexOf(Symbols(Stream(bytes))[i]), 4 - j)
       <==> 5 * i + j < 8 * |bytes| && Bit(bytes[(5 * i + j) / 8], 7 - (5 * i + j) % 8)
  {
    var s := Symbols(Stream(bytes));
    StreamOfSymbols(Stream(bytes));
    SymbolStreamAt(s, i, j);
    if 5 * i + j < 8 * |bytes| {
      StreamAt(bytes, (5 * i + j) / 8, (5 * i + j) % 8);
    }
  }

  /** Bit `n` of the input, or zero past its end. */
  function InputBit(bytes: seq<Byte>, n: nat): nat {
    if n < 8 * |bytes| && Bit(bytes[n / 8], 7 - n % 8) then 1 else 0
  }

  /** The five bits of symbol `i`, as a number. */
  function InputGroup(bytes: seq<Byte>, i: nat): nat {
    16 * InputBit(bytes, 5 * i) + 8 * InputBit(bytes, 5 * i + 1) + 4 * InputBit(bytes, 5 * i + 2)
    + 2 * InputBit(bytes, 5 * i + 3) + InputBit(bytes, 5 * i + 4)
  }

  lemma EncodedBit(bytes: seq<Byte>, s: string, i: nat, j: nat)
    requires s == Symbols(Stream(bytes)) && i < |s| && j < 5
    ensures IsSymbol(s[i]) && (Bit(IndexOf(s[i]), 4 - j) <==> InputBit(bytes, 5 * i + j) == 1)
  {
    EncodedBits(bytes, i, j);
  }

  lemma EncodedFive(bytes: seq<Byte>, output: string, i: nat, bits: seq<nat>)
    requires output == Symbols(Stream(bytes)) && i < |output| && |bits| == 5
    requires forall j: nat | j < 5 :: bits[j] == InputBit(bytes, 5 * i + j)
    ensures IsSymbol(output[i])
    ensures forall j: nat | j < 5 :: bits[j] <= 1 && (Bit(IndexOf(output[i]), 4 - j) <==> bits[j] == 1)
  {
    forall j: nat | j < 5
      ensures IsSymbol(output[i]) && bits[j] <= 1 && (Bit(IndexOf(output[i]), 4 - j) <==> bits[j] == 1)
    {
      EncodedBit(bytes, output, i, j);
    }
    assert bits[0] <= 1;
  }

  /** Table 3 of RFC 4648: the groups 0 to 25 are written `A` to `Z`, the groups 26 to 31 `2` to `7`. */
  lemma EncodedCharacters(bytes: seq<Byte>, output: string, i: nat)
    requires output == Symbols(Stream(bytes)) && i < |output|
    ensures var v := InputGroup(bytes, i); output[i] as int == if v < 26 then 65 + v else 24 + v
  {
    var bits := FiveOf(bytes, i);
    EncodedFive(bytes, output, i, bits);
    FiveAreIndex(output[i], bits);
  }

  function FiveOf(bytes: seq<Byte>, i: nat): (bits: seq<nat>)
    ensures |bits| == 5 && forall j: nat | j < 5 :: bits[j] == InputBit(bytes, 5 * i + j)
    ensures InputGroup(bytes, i) == 16 * bits[0] + 8 * bits[1] + 4 * bits[2] + 2 * bits[3] + bits[4]
  {
    [InputBit(bytes, 5 * i), InputBit(bytes, 5 * i + 1), InputBit(bytes, 5 * i + 2),
     InputBit(bytes, 5 * i + 3), InputBit(bytes, 5 * i + 4)]
  }

  lemma FiveAreIndex(c: char, bits: seq<nat>)
    requires IsSymbol(c) && |bits| == 5
    requires forall j: nat | j < 5 :: bits[j] <= 1 && (Bit(IndexOf(c), 4 - j) <==> bits[j] == 1)
    ensures var v := 16 * bits[0] + 8 * bits[1] + 4 * bits[2] + 2 * bits[3] + bits[4];
      c as int == if v < 26 then 65 + v else 24 + v
  {
    GroupIsIndex(c, bits[0], bits[1], bits[2], bits[3], bits[4]);
  }

  /** The test vector of section 10 of RFC 4648 for the text `f`. */
  lemma EncodingOfF(bytes: seq<Byte>, output: string)
    requires bytes == [0x66] && output == Symbols(Stream(bytes))
    ensures output == "MY"
  {
    BitsOfF();
    EncodedLength(bytes);
    assert |output| == 2;
    assert InputGroup(bytes, 0) == 12 && InputGroup(bytes, 1) == 24;
    EncodedCharacters(bytes, output, 0);
    EncodedCharacters(bytes, output, 1);
  }

  lemma BitsOfF()
    ensures !Bit(0x66, 7) && Bit(0x66, 6) && Bit(0x66, 5) && !Bit(0x66, 4)
    ensures !Bit(0x66, 3) && Bit(0x66, 2) && Bit(0x66, 1) && !Bit(0x66, 0)
  {
    assert Bit(0x66, 3) == Bit(0xC, 0) && Bit(0x66, 4) == Bit(0xC, 1) == Bit(6, 0);
    assert Bit(0x66, 7) == Bit(0xC, 4) == Bit(6, 3) == Bit(3, 2) == Bit(1, 1) == Bit(0, 0);
    assert Bit(0x66, 6) == Bit(0xC, 3) == Bit(6, 2) == Bit(3, 1) == Bit(1, 0);
    assert Bit(0x66, 5) == Bit(0xC, 2) == Bit(6, 1) == Bit(3, 0);
  }

  lemma GroupIsIndex(c: char, b0: nat, b1: nat, b2: nat, b3: nat, b4: nat)
    requires IsSymbol(c) && b0 <= 1 && b1 <= 1 && b2 <= 1 && b3 <= 1 && b4 <= 1
    requires (Bit(IndexOf(c), 4) <==> b0 == 1) && (Bit(IndexOf(c), 3) <==> b1 == 1)
    requires (Bit(IndexOf(c), 2) <==> b2 == 1) && (Bit(IndexOf(c), 1) <==> b3 == 1)
    requires Bit(IndexOf(c), 0) <==> b4 == 1
    ensures var v := 16 * b0 + 8 * b1 + 4 * b2 + 2 * b3 + b4; c as int == if v < 26 then 65 + v else 24 + v
  {
    IndexOfSymbol(c);
    FiveBits(IndexOf(c));
  }

  lemma FiveBits(v: nat)
    requires v < 32
    ensures v == (if Bit(v, 4) then 16 else 0) + (if Bit(v, 3) then 8 else 0) + (if Bit(v, 2) then 4 else 0)
              + (if Bit(v, 1) then 2 else 0) + (if Bit(v, 0) then 1 else 0)
  {
    assert Bit(v, 4) == Bit(v / 2, 3) == Bit(v / 2 / 2, 2) == Bit(v / 2 / 2 / 2, 1) == Bit(v / 2 / 2 / 2 / 2, 0);
    assert Bit(v, 3) == Bit(v / 2, 2) == Bit(v / 2 / 2, 1) == Bit(v / 2 / 2 / 2, 0);
    assert Bit(v, 2) == Bit(v / 2, 1) == Bit(v / 2 / 2, 0);
    assert Bit(v, 1) == Bit(v / 2, 0);
  }

  lemma {:induction false} SymbolStreamAt(s: string, i: nat, j: nat)
    requires IsSymbolString(s) && i < |s| && j < 5
    ensures SymbolStream(s)[5 * i + j] == Bit(IndexOf(s[i]), 4 - j)
  {
    if i == 0 {
      LowBitsAt(IndexOf(s[0]), 5, j);
    } else {
      SymbolStreamAt(s[1..], i - 1, j);
    }
  }

  lemma {:induction false} StreamAt(bytes: seq<Byte>, i: nat, j: nat)
    requires i < |bytes| && j < 8
    ensures Stream(bytes)[8 * i + j] == Bit(bytes[i], 7 - j)
  {
    if i == 0 {
      LowBitsAt(bytes[0], 8, j);
    } else {
      StreamAt(bytes[1..], i - 1, j);
    }
  }

  // ---- Decoding what was encoded --------------------------------------------------------

  /** Cleaning drops exactly the characters that are no symbols; the padding is among them. */
  lemma {:induction false} CleanIsKeep(s: string)
    ensures Keep(WithoutPadding(s), IsSymbol) == Keep(s, IsSymbol)
  {
    if s != "" && s[|s| - 1] == '=' {
      CleanIsKeep(s[..|s| - 1]);
      assert s == s[..|s| - 1] + "=";
      KeepConcat(s[..|s| - 1], "=", IsSymbol);
    }
  }

  lemma CleanConcat(s: string, t: string)
    ensures Clean(s + t) == Clean(s) + Clean(t)
  {
    CleanIsKeep(Upper(s + t));
    CleanIsKeep(Upper(s));
    CleanIsKeep(Upper(t));
    UpperConcat(s, t);
    KeepConcat(Upper(s), Upper(t), IsSymbol);
  }

  lemma CleanSymbols(s: string)
    requires IsSymbolString(s)
    ensures Clean(s) == s
  {
    UpperFixed(s);
    CleanIsKeep(s);
    KeepNothingDropped(s, IsSymbol);
  }

  /** Decoding the encoding of any bytes gives those bytes. */
  lemma DecodeAfterEncode(bytes: seq<Byte>)
    ensures Decoded(Symbols(Stream(bytes))) == bytes
  {
    StreamOfSymbols(Stream(bytes));
    CleanSymbols(Symbols(Stream(bytes)));
    OctetsOfStream(bytes, Zeros(5 * |Symbols(Stream(bytes))| - 8 * |bytes|));
  }

  /** The security page: a space after every four characters, `s.match(/.{1,4}/g).join(' ')`.
      A dot does not match a line terminator, so the matches start after it. */
  function FormatSecret(secret: string): string {
    if Groups(secret) == [] then secret else Join(Groups(secret))
  }

  predicate IsLineTerminator(c: char) {
    c == '\n' || c == '\r' || c == '\U{2028}' || c == '\U{2029}'
  }

  /** How many of the first `most` characters the pattern matches. */
  function Run(s: string, most: nat): (n: nat)
    ensures n <= |s| && n <= most
    ensures s != "" && most > 0 && !IsLineTerminator(s[0]) ==> n > 0
  {
    if s == "" || most == 0 || IsLineTerminator(s[0]) then 0 else 1 + Run(s[1..], most - 1)
  }

  function Groups(s: string): seq<string> {
    if s == "" then []
    else if IsLineTerminator(s[0]) then Groups(s[1..])
    else [s[..Run(s, 4)]] + Groups(s[Run(s, 4)..])
  }

  function Join(groups: seq<string>): string {
    if groups == [] then ""
    else if |groups| == 1 then groups[0]
    else groups[0] + " " + Join(groups[1..])
  }

  lemma {:induction false} RunTakes(s: string, most: nat)
    requires forall c <- s :: !IsLineTerminator(c)
    ensures Run(s, most) == if |s| < most then |s| else most
    decreases most
  {
    if s != "" && most > 0 {
      RunTakes(s[1..], most - 1);
    }
  }

  /** The characters of `s` in order, with a space after every fourth that is not the last. */
  predicate IsInFours(s: string, shown: string) {
    && s != "" && |shown| == |s| + (|s| - 1) / 4
    && (forall i | 0 <= i < |s| :: shown[i + i / 4] == s[i])
    && (forall k | 0 <= k < (|s| - 1) / 4 :: shown[5 * k + 4] == ' ')
  }

  lemma FourMore(s: string, shown: string)
    requires |s| > 4 && IsInFours(s[4..], shown)
    ensures IsInFours(s, s[..4] + " " + shown)
  {
    var all := s[..4] + " " + shown;
    forall i | 0 <= i < |s|
      ensures all[i + i / 4] == s[i]
    {
      if i >= 4 {
        assert shown[(i - 4) + (i - 4) / 4] == s[4..][i - 4];
      }
    }
    forall k | 0 <= k < (|s| - 1) / 4
      ensures all[5 * k + 4] == ' '
    {
      if k > 0 {
        assert shown[5 * (k - 1) + 4] == ' ';
      }
    }
  }

  lemma {:induction false} GroupedInFours(s: string)
    requires s != "" && forall c <- s :: !IsLineTerminator(c)
    ensures Groups(s) != [] && IsInFours(s, Join(Groups(s)))
  {
    RunTakes(s, 4);
    if |s| <= 4 {
      assert s[|s|..] == "" && s[..|s|] == s;
      assert Groups(s) == [s] + [];
    } else {
      GroupedInFours(s[4..]);
      assert Groups(s) == [s[..4]] + Groups(s[4..]);
      assert Groups(s)[1..] == Groups(s[4..]);
      FourMore(s, Join(Groups(s[4..])));
    }
  }

  /** A secret is shown in fours. */
  lemma ShownInFours(bytes: seq<Byte>, secret: string)
    requires bytes != [] && secret == Symbols(Stream(bytes))
    ensures IsInFours(secret, FormatSecret(secret))
  {
    EncodedLength(bytes);
    SymbolsAreOnOneLine(secret);
    GroupedInFours(secret);
  }

  lemma SymbolsAreOnOneLine(s: string)
    requires IsSymbolString(s)
    ensures forall c <- s :: !IsLineTerminator(c)
  {}

  lemma {:induction false} CleanGroups(s: string)
    ensures Clean(Join(Groups(s))) == Clean(s)
  {
    if s == "" {
    } else if IsLineTerminator(s[0]) {
      assert s == [s[0]] + s[1..];
      CleanConcat([s[0]], s[1..]);
      CleanDropped(s[0]);
      CleanGroups(s[1..]);
    } else {
      var n := Run(s, 4);
      assert s == s[..n] + s[n..];
      CleanConcat(s[..n], s[n..]);
      CleanGroups(s[n..]);
      CleanJoin(s[..n], Groups(s[n..]));
    }
  }

  lemma CleanJoin(group: string, rest: seq<string>)
    ensures Clean(Join([group] + rest)) == Clean(group) + Clean(Join(rest))
  {
    if rest == [] {
      assert Clean("") == "";
    } else {
      assert Join([group] + rest) == group + " " + Join(rest);
      CleanConcat(group + " ", Join(rest));
      CleanConcat(group, " ");
      CleanDropped(' ');
    }
  }

  lemma CleanDropped(c: char)
    requires c == ' ' || IsLineTerminator(c)
    ensures Clean([c]) == ""
  {
    SeparatorIsFixed(c);
    CleanIsKeep(Upper([c]));
    UpperFixed([c]);
    KeepNothing([c], IsSymbol);
  }

  lemma SeparatorIsFixed(c: char)
    requires c == ' ' || IsLineTerminator(c)
    ensures UpperChar(c) == [c] && !IsSymbol(c)
  {}

  lemma CleanFormatted(s: string)
    ensures Clean(FormatSecret(s)) == Clean(s)
  {
    CleanGroups(s);
  }

  lemma {:induction false} CleanLowered(s: string)
    requires forall c <- s :: IsAscii(c)
    ensures Clean(Lower(s)) == Clean(s)
  {
    if s != "" {
      assert s == [s[0]] + s[1..];
      CleanConcat([s[0]], s[1..]);
      CleanConcat([Lowered(s[0])], Lower(s[1..]));
      CleanLowered(s[1..]);
      UpperLowered(s[0]);
      assert Clean([Lowered(s[0])]) == Clean([s[0]]);
    }
  }

  /** A secret survives being shown in groups of four and typed back in lower case. */
  lemma DecodeAfterRetyping(bytes: seq<Byte>)
    ensures Decoded(Lower(Symbols(Stream(bytes)))) == bytes
    ensures Decoded(FormatSecret(Symbols(Stream(bytes)))) == bytes
    ensures Decoded(FormatSecret(Lower(Symbols(Stream(bytes))))) == bytes
  {
    var s := Symbols(Stream(bytes));
    DecodeAfterEncode(bytes);
    StreamOfSymbols(Stream(bytes));
    CleanLowered(s);
    CleanFormatted(s);
    CleanFormatted(Lower(s));
  }

  // ---- Encoding what was decoded --------------------------------------------------------

  /** Section 3.5 of RFC 4648: only symbols, no symbol that adds no octet, and the bits past the
      last whole octet are zero. */
  ghost predicate Canonical(s: string) {
    && IsSymbolString(s)
    && 5 * |s| % 8 < 5
    && forall i | 5 * |s| / 8 * 8 <= i < 5 * |s| :: !SymbolStream(s)[i]
  }

  /** Encoding after decoding gives the text back exactly when the text is canonical. */
  lemma EncodeAfterDecode(s: string)
    ensures Symbols(Stream(Decoded(s))) == s <==> Canonical(s)
  {
    var bytes := Decoded(s);
    var encoded := Symbols(Stream(bytes));
    StreamOfSymbols(Stream(bytes));
    if IsSymbolString(s) {
      CleanSymbols(s);
      var r := SymbolStream(s);
      StreamOfOctets(r);
      var whole := 8 * |bytes|;
      assert 5 * |s| / 8 == |bytes| && 5 * |s| % 8 == |r| - whole;
      if Canonical(s) {
        assert r == r[..whole] + Zeros(|r| - whole);
        FilledStreamIsSymbols(s, r[..whole]);
      }
      if encoded == s {
        assert r == r[..whole] + Zeros(|r| - whole);
      }
    }
  }
}
