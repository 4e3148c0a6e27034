/**
 * The string primitives the Go code relies on, with the semantics of the Go
 * standard library (`strings`, `strconv`, `path/filepath`, `fmt`) and of
 * SQLite's `lower()`, `LIKE` and BINARY collation, restricted to ASCII text.
 */
module Text {
  import opened Common

  const MinInt64: int := -0x8000_0000_0000_0000
  const MaxInt64: int := 0x7FFF_FFFF_FFFF_FFFF
  const MaxUint32: int := 0xFFFF_FFFF

  predicate IsDigit(c: char) { '0' <= c <= '9' }

  predicate AllDigits(s: string) { forall i :: 0 <= i < |s| ==> IsDigit(s[i]) }

  /** ASCII lower-casing, as Go's `strings.ToLower` and SQLite's `lower()` do on ASCII. */
  function Lower(c: char): char {
    if 'A' <= c <= 'Z' then (c as int + 32) as char else c
  }

  function ToLower(s: string): (r: string)
    ensures |r| == |s|
    ensures forall i :: 0 <= i < |s| ==> r[i] == Lower(s[i])
  {
    seq(|s|, i requires 0 <= i < |s| => Lower(s[i]))
  }

  predicate IsPrefix(p: string, s: string) { |p| <= |s| && s[..|p|] == p }

  /** Go's `strings.HasSuffix`. */
  predicate HasSuffix(s: string, suffix: string) {
    |suffix| <= |s| && s[|s| - |suffix|..] == suffix
  }

  /** `sub` occurs in `s` starting at position `j`. */
  predicate OccursAt(s: string, sub: string, j: int) {
    0 <= j && j + |sub| <= |s| && s[j..j + |sub|] == sub
  }

  /** Go's `strings.Index`: the first position at which `sub` occurs in `s`. */
  function IndexOf(s: string, sub: string): (r: Option<nat>)
    ensures r.Some? ==> OccursAt(s, sub, r.value)
    ensures r.Some? ==> forall j :: 0 <= j < r.value ==> !OccursAt(s, sub, j)
    ensures r.None? ==> forall j :: !OccursAt(s, sub, j)
    decreases |s|
  {
    if IsPrefix(sub, s) then Some(0)
    else if |s| == 0 then None
    else
      var rest := IndexOf(s[1..], sub);
      assert forall j :: 1 <= j ==> (OccursAt(s, sub, j) <==> OccursAt(s[1..], sub, j - 1)) by {
        forall j | 1 <= j ensures OccursAt(s, sub, j) <==> OccursAt(s[1..], sub, j - 1) {
          OccursShift(s, sub, j);
        }
      }
      match rest
      case None => None
      case Some(k) => Some(k + 1)
  }

  lemma OccursShift(s: string, sub: string, j: int)
    requires |s| > 0 && 1 <= j
    ensures OccursAt(s, sub, j) <==> OccursAt(s[1..], sub, j - 1)
  {
    if j + |sub| <= |s| {
      var tail := s[1..];
      assert |tail| == |s| - 1;
      var here, there := s[j..j + |sub|], tail[j - 1..j - 1 + |sub|];
      forall k | 0 <= k < |sub| ensures here[k] == there[k] {
        assert tail[j - 1 + k] == s[j + k];
      }
      assert here == there;
    }
  }

  /** Go's `strings.Contains`. */
  predicate Contains(s: string, sub: string) { IndexOf(s, sub).Some? }

  /**
   * Go's `strings.Replace(s, from, to, 1)`: replace the first occurrence only.
   * An empty `from` matches at the very beginning, so `to` is prepended.
   */
  function ReplaceFirst(s: string, from: string, to: string): string {
    if from == [] then to + s
    else match IndexOf(s, from)
      case None => s
      case Some(i) => s[..i] + to + s[i + |from|..]
  }

  /** A match at `k` with none before it is where ReplaceFirst replaces. */
  lemma ReplaceFirstAt(s: string, from: string, to: string, k: nat)
    requires from != []
    requires OccursAt(s, from, k)
    requires forall j :: 0 <= j < k ==> !OccursAt(s, from, j)
    ensures ReplaceFirst(s, from, to) == s[..k] + to + s[k + |from|..]
  {
  }

  /** `sub` cannot occur where `s` has a character other than sub's first. */
  lemma NoOccurrence(s: string, sub: string, j: int)
    requires |sub| > 0 && 0 <= j < |s| && s[j] != sub[0]
    ensures !OccursAt(s, sub, j)
  {
    if j + |sub| <= |s| {
      assert s[j..j + |sub|][0] == s[j];
    }
  }

  /** Go's `strings.Split` on a one-character separator. */
  function Split(s: string, sep: char): (parts: seq<string>)
    ensures |parts| >= 1
  {
    if |s| == 0 then [""]
    else
      var rest := Split(s[1..], sep);
      if s[0] == sep then [""] + rest else [[s[0]] + rest[0]] + rest[1..]
  }

  /** Go's `strings.Join`. */
  function Join(parts: seq<string>, sep: string): string {
    if |parts| == 0 then ""
    else if |parts| == 1 then parts[0]
    else parts[0] + sep + Join(parts[1..], sep)
  }

  /** Go's `strings.Repeat`. */
  function Repeat(s: string, n: nat): (r: string)
    ensures |r| == n * |s|
  {
    if n == 0 then "" else s + Repeat(s, n - 1)
  }

  /** How many times `c` occurs in `s`. */
  function Count(s: string, c: char): nat {
    if |s| == 0 then 0 else (if s[0] == c then 1 else 0) + Count(s[1..], c)
  }

  lemma {:induction false} CountAppend(a: string, b: string, c: char)
    ensures Count(a + b, c) == Count(a, c) + Count(b, c)
  {
    if |a| > 0 {
      assert (a + b)[1..] == a[1..] + b;
      CountAppend(a[1..], b, c);
    } else {
      assert a + b == b;
    }
  }

  // ---------------------------------------------------------------------
  // Decimal numbers: strconv.Atoi and fmt's %v of an int

  function DigitChar(d: nat): char requires d < 10 { (d + '0' as int) as char }

  function DigitsValue(s: string): nat
    requires AllDigits(s)
  {
    if |s| == 0 then 0 else DigitsValue(s[..|s| - 1]) * 10 + (s[|s| - 1] as int - '0' as int)
  }

  /** The decimal digits of `n`, most significant first, without leading zeros. */
  function Digits(n: nat): (r: string)
    ensures |r| >= 1 && AllDigits(r)
  {
    if n < 10 then [DigitChar(n)] else Digits(n / 10) + [DigitChar(n % 10)]
  }

  /** `fmt`'s `%v` (or `%d`) of an integer. */
  function Itoa(n: int): string {
    if n < 0 then "-" + Digits(-n) else Digits(n)
  }

  /**
   * Go's `strconv.Atoi` on a 64-bit platform: an optional `+` or `-`, then one or
   * more decimal digits, and the value must fit in an int64. Anything else
   * (`""`, `"-"`, `"0x10"`, `" 3"`) is an error.
   */
  function Atoi(s: string): (r: Option<int>)
    ensures r.Some? ==> MinInt64 <= r.value <= MaxInt64
    ensures r.Some? ==> |s| > 0 && forall i :: 1 <= i < |s| ==> IsDigit(s[i])
    ensures r.Some? && r.value < 0 ==> s[0] == '-'
  {
    var signed := |s| > 0 && (s[0] == '+' || s[0] == '-');
    var body := if signed then s[1..] else s;
    if |body| == 0 || !AllDigits(body) then None
    else
      var v: int := if signed && s[0] == '-' then -(DigitsValue(body) as int) else DigitsValue(body);
      if MinInt64 <= v <= MaxInt64 then Some(v) else None
  }

  lemma {:induction false} DigitsRoundTrip(n: nat)
    ensures DigitsValue(Digits(n)) == n
  {
    if n >= 10 {
      var d := Digits(n);
      assert d[..|d| - 1] == Digits(n / 10);
      DigitsRoundTrip(n / 10);
    }
  }

  /** Printing an int64 with `%v` and reading it back with `Atoi` gives it back. */
  lemma AtoiItoa(n: int)
    requires MinInt64 <= n <= MaxInt64
    ensures Atoi(Itoa(n)) == Some(n)
  {
    if n < 0 {
      DigitsRoundTrip(-n);
      assert Itoa(n)[1..] == Digits(-n);
    } else {
      DigitsRoundTrip(n);
      assert IsDigit(Digits(n)[0]);
    }
  }

  /** An accepted token consists of an optional sign followed by decimal digits only. */
  lemma AtoiAcceptsOnlyDecimal(s: string)
    requires Atoi(s).Some?
    ensures |s| >= 1
    ensures forall i :: 1 <= i < |s| ==> IsDigit(s[i])
    ensures IsDigit(s[0]) || s[0] == '+' || s[0] == '-'
  {
  }

  /** A leading `0` does not change a decimal value. */
  lemma {:induction false} DecimalLeadingZero(s: string)
    requires AllDigits(s)
    ensures AllDigits("0" + s) && DigitsValue("0" + s) == DigitsValue(s)
    decreases |s|
  {
    var t := "0" + s;
    if |s| == 0 {
      assert t[..0] == "";
    } else {
      var init := s[..|s| - 1];
      DecimalLeadingZero(init);
      assert t[..|t| - 1] == "0" + init;
      assert t[|t| - 1] == s[|s| - 1];
    }
  }

  /** Any number of leading zeros does not change a decimal value. */
  lemma {:induction false} DecimalLeadingZeros(z: nat, s: string)
    requires AllDigits(s)
    ensures AllDigits(Repeat("0", z) + s) && DigitsValue(Repeat("0", z) + s) == DigitsValue(s)
    decreases z
  {
    if z > 0 {
      DecimalLeadingZeros(z - 1, s);
      assert Repeat("0", z) + s == "0" + (Repeat("0", z - 1) + s);
      DecimalLeadingZero(Repeat("0", z - 1) + s);
    } else {
      assert Repeat("0", z) + s == s;
    }
  }

  /**
   * Every token `Atoi` accepts is a sign (none, `+` or `-`), some zeros and the
   * decimal rendering of a number; its value is that number, negated after `-`.
   */
  lemma AtoiPadded(sign: string, z: nat, n: nat)
    requires sign == "" || sign == "+" || sign == "-"
    requires if sign == "-" then n <= MaxInt64 + 1 else n <= MaxInt64
    ensures Atoi(sign + Repeat("0", z) + Digits(n)) == Some(if sign == "-" then -(n as int) else n)
  {
    var zeros, digits := Repeat("0", z), Digits(n);
    PaddedDigits(z, n);
    AtoiSigned(sign, zeros + digits);
    AppendAssoc(sign, zeros, digits);
  }

  /** Zeros in front of the decimal rendering of `n` still read as `n`. */
  lemma PaddedDigits(z: nat, n: nat)
    ensures var body := Repeat("0", z) + Digits(n);
      |body| > 0 && AllDigits(body) && DigitsValue(body) == n
  {
    DigitsRoundTrip(n);
    DecimalLeadingZeros(z, Digits(n));
  }

  /** A sign followed by decimal digits reads as their value, negated after `-`. */
  lemma AtoiSigned(sign: string, body: string)
    requires sign == "" || sign == "+" || sign == "-"
    requires |body| > 0 && AllDigits(body)
    requires if sign == "-" then DigitsValue(body) <= MaxInt64 + 1 else DigitsValue(body) <= MaxInt64
    ensures Atoi(sign + body) == Some(if sign == "-" then -(DigitsValue(body) as int) else DigitsValue(body))
  {
    var s := sign + body;
    if sign == "" {
      assert s == body && IsDigit(s[0]);
    } else {
      assert s[0] == sign[0] && s[1..] == body;
    }
  }

  // ---------------------------------------------------------------------
  // Hexadecimal numbers: fmt's %08X and strconv.ParseUint(s, 16, 32)

  function HexDigit(d: nat): char
    requires d < 16
  {
    if d < 10 then (d + '0' as int) as char else (d - 10 + 'A' as int) as char
  }

  predicate IsHexDigit(c: char) { '0' <= c <= '9' || 'a' <= c <= 'f' || 'A' <= c <= 'F' }

  function HexValue(c: char): nat
    requires IsHexDigit(c)
  {
    if '0' <= c <= '9' then c as int - '0' as int
    else if 'a' <= c <= 'f' then c as int - 'a' as int + 10
    else c as int - 'A' as int + 10
  }

  predicate AllHex(s: string) { forall i :: 0 <= i < |s| ==> IsHexDigit(s[i]) }

  function HexStringValue(s: string): nat
    requires AllHex(s)
  {
    if |s| == 0 then 0 else HexStringValue(s[..|s| - 1]) * 16 + HexValue(s[|s| - 1])
  }

  /** The upper-case hexadecimal digits of `n`, without leading zeros. */
  function HexDigits(n: nat): (r: string)
    ensures |r| >= 1 && AllHex(r)
  {
    if n < 16 then [HexDigit(n)] else HexDigits(n / 16) + [HexDigit(n % 16)]
  }

  /** `fmt`'s `%08X` of a non-negative int: upper-case hex, zero-padded to at least 8 digits. */
  function Hex08(n: nat): (r: string)
    ensures |r| >= 8 && AllHex(r)
  {
    var h := HexDigits(n);
    if |h| < 8 then RepeatZeroAt(8 - |h|); Repeat("0", 8 - |h|) + h else h
  }

  /** How `strconv.ParseUint(s, 16, 32)` ends: a value, `ErrSyntax` or `ErrRange`. */
  datatype ParseOutcome = Parsed(value: nat) | SyntaxError | RangeError

  /**
   * `strconv.ParseUint(s, 16, 32)`: the digits are read left to right; an
   * empty string or a character that is not a hex digit (of either case) is
   * a syntax error, a digit that takes the value past 32 bits a range error,
   * whichever comes first. There is no prefix and no sign.
   */
  function ParseHex32(s: string): (r: ParseOutcome)
    ensures r.Parsed? ==> r.value <= MaxUint32
  {
    if |s| == 0 then SyntaxError else ParseHexFrom(s, 0, 0)
  }

  function ParseHexFrom(s: string, i: nat, n: nat): (r: ParseOutcome)
    requires i <= |s| && n <= MaxUint32
    ensures r.Parsed? ==> r.value <= MaxUint32
    decreases |s| - i
  {
    if i == |s| then Parsed(n)
    else if !IsHexDigit(s[i]) then SyntaxError
    else if n * 16 + HexValue(s[i]) > MaxUint32 then RangeError
    else ParseHexFrom(s, i + 1, n * 16 + HexValue(s[i]))
  }

  /** A longer run of hex digits has at least the value of its prefix. */
  lemma {:induction false} HexPrefixValue(s: string, k: nat)
    requires k <= |s| && AllHex(s)
    ensures HexStringValue(s[..k]) <= HexStringValue(s)
    decreases |s|
  {
    if k < |s| {
      var init := s[..|s| - 1];
      assert init[..k] == s[..k];
      HexPrefixValue(init, k);
    } else {
      assert s[..k] == s;
    }
  }

  lemma {:induction false} ParseHexFromValue(s: string, i: nat, n: nat)
    requires i <= |s| && n <= MaxUint32
    requires AllHex(s[..i]) && n == HexStringValue(s[..i])
    ensures ParseHexFrom(s, i, n).Parsed? <==> AllHex(s) && HexStringValue(s) <= MaxUint32
    ensures ParseHexFrom(s, i, n).Parsed? ==> ParseHexFrom(s, i, n).value == HexStringValue(s)
    decreases |s| - i
  {
    if i == |s| {
      assert s[..i] == s;
    } else if IsHexDigit(s[i]) {
      var m := n * 16 + HexValue(s[i]);
      var next := s[..i + 1];
      assert next[..i] == s[..i];
      assert AllHex(next) && HexStringValue(next) == m;
      if m > MaxUint32 {
        if AllHex(s) {
          HexPrefixValue(s, i + 1);
        }
      } else {
        ParseHexFromValue(s, i + 1, m);
      }
    }
  }

  /**
   * The parse succeeds exactly on a non-empty run of hex digits whose value
   * fits in 32 bits, and then yields that value.
   */
  lemma ParseHex32Value(s: string)
    ensures ParseHex32(s).Parsed? <==> |s| > 0 && AllHex(s) && HexStringValue(s) <= MaxUint32
    ensures ParseHex32(s).Parsed? ==> ParseHex32(s).value == HexStringValue(s)
  {
    if |s| > 0 {
      assert s[..0] == [];
      ParseHexFromValue(s, 0, 0);
    }
  }

  lemma {:induction false} HexDigitsRoundTrip(n: nat)
    ensures HexStringValue(HexDigits(n)) == n
  {
    if n >= 16 {
      var h := HexDigits(n);
      assert h[..|h| - 1] == HexDigits(n / 16);
      HexDigitsRoundTrip(n / 16);
    }
  }

  lemma {:induction false} LeadingZeros(z: nat, h: string)
    requires AllHex(h)
    ensures AllHex(Repeat("0", z) + h)
    ensures HexStringValue(Repeat("0", z) + h) == HexStringValue(h)
    decreases z, |h|
  {
    var s := Repeat("0", z) + h;
    assert forall i :: 0 <= i < z ==> s[i] == '0' by { RepeatZeroAt(z); }
    if |h| == 0 {
      assert s == Repeat("0", z);
      if z > 0 {
        assert Repeat("0", z) == Repeat("0", z - 1) + "0" by { RepeatSnoc(z); }
        assert s[..|s| - 1] == Repeat("0", z - 1) + [];
        LeadingZeros(z - 1, []);
      }
    } else {
      assert s[..|s| - 1] == Repeat("0", z) + h[..|h| - 1];
      LeadingZeros(z, h[..|h| - 1]);
    }
  }

  lemma {:induction false} RepeatZeroAt(z: nat)
    ensures forall i :: 0 <= i < z ==> Repeat("0", z)[i] == '0'
  {
    if z > 0 { RepeatZeroAt(z - 1); }
  }

  lemma {:induction false} RepeatSnoc(z: nat)
    requires z > 0
    ensures Repeat("0", z) == Repeat("0", z - 1) + "0"
  {
    if z > 1 { RepeatSnoc(z - 1); }
  }

  /** 16 to the power `k`. */
  function Pow16(k: nat): nat {
    if k == 0 then 1 else 16 * Pow16(k - 1)
  }

  /** A value below 16^k has at most k hexadecimal digits. */
  lemma {:induction false} HexDigitsAtMost(n: nat, k: nat)
    requires 1 <= k && n < Pow16(k)
    ensures |HexDigits(n)| <= k
    decreases k
  {
    if n >= 16 {
      assert k != 1;
      HexDigitsAtMost(n / 16, k - 1);
    }
  }

  /** `%08X` of a 32-bit value is exactly eight digits wide. */
  lemma Hex08Width(n: nat)
    requires n <= MaxUint32
    ensures |Hex08(n)| == 8
  {
    assert Pow16(8) == MaxUint32 + 1;
    HexDigitsAtMost(n, 8);
  }

  /** What `%08X` prints for a 32-bit value, `ParseUint(_, 16, 32)` reads back. */
  lemma Hex08RoundTrip(n: nat)
    requires n <= MaxUint32
    ensures ParseHex32(Hex08(n)) == Parsed(n)
  {
    var h := HexDigits(n);
    HexDigitsRoundTrip(n);
    if |h| < 8 { LeadingZeros(8 - |h|, h); }
    ParseHex32Value(Hex08(n));
  }

  // ---------------------------------------------------------------------
  // Orders and patterns used by the SQL queries

  /**
   * SQLite's BINARY collation on text: byte-wise comparison, which for
   * characters coincides with code-point order.
   */
  predicate NameLe(a: string, b: string) {
    |a| == 0 || (|b| > 0 && (a[0] < b[0] || (a[0] == b[0] && NameLe(a[1..], b[1..]))))
  }

  lemma {:induction false} NameLeTotal(a: string, b: string)
    ensures NameLe(a, b) || NameLe(b, a)
  {
    if |a| > 0 && |b| > 0 && a[0] == b[0] { NameLeTotal(a[1..], b[1..]); }
  }

  lemma {:induction false} NameLeTransitive(a: string, b: string, c: string)
    requires NameLe(a, b) && NameLe(b, c)
    ensures NameLe(a, c)
  {
    if |a| > 0 && a[0] == b[0] && b[0] == c[0] { NameLeTransitive(a[1..], b[1..], c[1..]); }
  }

  /**
   * SQLite's `LIKE` on already lower-cased text: `%` matches any run of
   * characters, `_` exactly one, every other character itself (there is no
   * ESCAPE clause in the queries).
   */
  predicate Like(s: string, p: string)
    ensures Like(s, p) ==> |s| >= Fixed(p)
    decreases |p|, |s|
  {
    if |p| == 0 then |s| == 0
    else if p[0] == '%' then Like(s, p[1..]) || (|s| > 0 && Like(s[1..], p))
    else if p[0] == '_' then |s| > 0 && Like(s[1..], p[1..])
    else |s| > 0 && s[0] == p[0] && Like(s[1..], p[1..])
  }

  /** The number of characters of `p` other than `%`: the fewest a string matching `p` can have. */
  function Fixed(p: string): nat {
    if |p| == 0 then 0 else (if p[0] == '%' then 0 else 1) + Fixed(p[1..])
  }

  /** `lower(name) LIKE lower(pattern)`, the name test of the peripheral queries. */
  predicate NameLike(name: string, pattern: string)
    ensures NoWildcards(ToLower(pattern)) ==> (NameLike(name, pattern) <==> ToLower(name) == ToLower(pattern))
  {
    var n, p := ToLower(name), ToLower(pattern);
    if NoWildcards(p) then LikeLiteral(n, p); Like(n, p) else Like(n, p)
  }

  predicate NoWildcards(p: string) { forall i :: 0 <= i < |p| ==> p[i] != '%' && p[i] != '_' }

  /** Without `%` or `_`, LIKE is plain equality. */
  lemma {:induction false} LikeLiteral(s: string, p: string)
    requires NoWildcards(p)
    ensures Like(s, p) <==> s == p
    decreases |p|
  {
    if |p| > 0 && |s| > 0 { LikeLiteral(s[1..], p[1..]); }
  }

  /** Every string matches itself used as a pattern, whatever wildcards it holds. */
  lemma {:induction false} LikeSelf(s: string)
    ensures Like(s, s)
    decreases |s|
  {
    if |s| > 0 {
      LikeSelf(s[1..]);
      if s[0] == '%' { LikeEmptyPercent(s[1..]); }
    }
  }

  /** A pattern `%q` matches every string that `q` matches. */
  lemma LikeEmptyPercent(q: string)
    requires Like(q, q)
    ensures Like(q, "%" + q)
  {
    assert ("%" + q)[1..] == q;
  }

  /** `_` takes exactly one character, whatever it is. */
  lemma LikeUnderscore(s: string, p: string)
    ensures Like(s, "_" + p) <==> |s| >= 1 && Like(s[1..], p)
  {
    assert ("_" + p)[0] == '_' && ("_" + p)[1..] == p;
  }

  /** `%` alone matches everything. */
  lemma {:induction false} LikeAnyRun(s: string)
    ensures Like(s, "%")
    decreases |s|
  {
    if |s| > 0 { LikeAnyRun(s[1..]); }
  }

  /** A literal prefix followed by `%` matches exactly the strings with that prefix. */
  lemma {:induction false} LikePrefix(s: string, prefix: string)
    requires NoWildcards(prefix)
    ensures Like(s, prefix + "%") <==> IsPrefix(prefix, s)
    decreases |prefix|
  {
    if |prefix| == 0 {
      assert prefix + "%" == "%";
      LikeAnyRun(s);
    } else {
      assert (prefix + "%")[1..] == prefix[1..] + "%";
      if |s| > 0 {
        LikePrefix(s[1..], prefix[1..]);
        assert IsPrefix(prefix, s) <==> s[0] == prefix[0] && IsPrefix(prefix[1..], s[1..]);
      }
    }
  }

  /** The name test ignores ASCII case on both sides. */
  lemma NameLikeIgnoresCase(name: string, pattern: string)
    ensures NameLike(name, pattern) <==> NameLike(ToLower(name), pattern)
    ensures NameLike(name, pattern) <==> NameLike(name, ToLower(pattern))
  {
    assert ToLower(ToLower(name)) == ToLower(name);
    assert ToLower(ToLower(pattern)) == ToLower(pattern);
  }

  // ---------------------------------------------------------------------
  // File names and peripheral names

  /**
   * Go's `filepath.Ext` on a Unix path: the suffix from the last `.` of the
   * final path element, or "" when that element has no `.`.
   */
  function Ext(path: string): (e: string)
    ensures HasSuffix(path, e)
    ensures e == [] || e[0] == '.'
    ensures forall i :: 0 <= i < |e| ==> e[i] != '/'
    ensures forall i :: 1 <= i < |e| ==> e[i] != '.'
  {
    if |path| == 0 || path[|path| - 1] == '/' then ""
    else if path[|path| - 1] == '.' then "."
    else
      var e := Ext(path[..|path| - 1]);
      if e == "" then "" else e + [path[|path| - 1]]
  }

  /** A final path element `stem.ext` whose `ext` has no `.` or `/` has extension `.ext`. */
  lemma {:induction false} ExtOfName(stem: string, ext: string)
    requires forall i :: 0 <= i < |ext| ==> ext[i] != '.' && ext[i] != '/'
    ensures Ext(stem + "." + ext) == "." + ext
    decreases |ext|
  {
    var path := stem + "." + ext;
    if |ext| > 0 {
      var n := |ext| - 1;
      ExtOfName(stem, ext[..n]);
      assert path[..|path| - 1] == stem + "." + ext[..n];
      assert ("." + ext[..n]) + [ext[n]] == "." + ext;
    }
  }

  /** The regular expression `.*[\d]+$` matches exactly the names whose last character is an ASCII digit. */
  predicate EndsInDigit(name: string) { |name| > 0 && IsDigit(name[|name| - 1]) }
}
