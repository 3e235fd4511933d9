/** The parts of Go's `strings` and `strconv` packages that the parsers are built on. */
module GoStrings {
  import opened Wrappers

  // ----- White space and fields -----

  /** `unicode.IsSpace`. */
  predicate IsSpace(c: char) {
    var u := c as int;
    || 0x09 <= u <= 0x0D || u == 0x20 || u == 0x85 || u == 0xA0
    || u == 0x1680 || 0x2000 <= u <= 0x200A || u == 0x2028 || u == 0x2029
    || u == 0x202F || u == 0x205F || u == 0x3000
  }

  predicate AllSpace(s: string) { forall c :: c in s ==> IsSpace(c) }

  /** A field: non-empty and free of white space. */
  predicate IsToken(s: string) { s != "" && forall c :: c in s ==> !IsSpace(c) }

  /** Nothing, or something that ends the field before it. */
  predicate Breaks(s: string) { s == "" || IsSpace(s[0]) }

  function TokenLength(s: string): (n: nat)
    ensures n <= |s| && Breaks(s[n..])
    ensures forall c :: c in s[..n] ==> !IsSpace(c)
  {
    if Breaks(s) then 0 else
      var n := TokenLength(s[1..]);
      assert s[..n + 1] == [s[0]] + s[1..][..n];
      n + 1
  }

  /** `strings.Fields`. */
  function Fields(s: string): seq<string>
    decreases |s|
  {
    if s == "" then []
    else if IsSpace(s[0]) then Fields(s[1..])
    else
      var n := TokenLength(s);
      [s[..n]] + Fields(s[n..])
  }

  /** `strings.IndexByte`. */
  function IndexByte(s: string, c: char): (i: int)
    ensures -1 <= i < |s|
    ensures i < 0 ==> c !in s
    ensures i >= 0 ==> s[i] == c && c !in s[..i]
  {
    if s == "" then -1
    else if s[0] == c then 0
    else
      var i := IndexByte(s[1..], c);
      if i < 0 then -1
      else
        assert s[..i + 1] == [s[0]] + s[1..][..i];
        i + 1
  }

  function TrimLeft(s: string): string {
    if s != "" && IsSpace(s[0]) then TrimLeft(s[1..]) else s
  }

  function TrimRight(s: string): string {
    if s != "" && IsSpace(s[|s| - 1]) then TrimRight(s[..|s| - 1]) else s
  }

  /** `strings.TrimSpace`. */
  function TrimSpace(s: string): string { TrimRight(TrimLeft(s)) }

  /** Free of white space at both ends. */
  predicate Trimmed(s: string) {
    s != "" ==> !IsSpace(s[0]) && !IsSpace(s[|s| - 1])
  }

  /** `strings.HasPrefix`. */
  predicate HasPrefix(s: string, prefix: string) { prefix <= s }

  // ----- Splitting and joining -----

  /** `strings.Split` with a one-character separator. */
  function Split(s: string, sep: char): (parts: seq<string>)
    ensures parts != []
    decreases |s|
  {
    var i := IndexByte(s, sep);
    if i < 0 then [s] else [s[..i]] + Split(s[i + 1..], sep)
  }

  function Join(parts: seq<string>, sep: char): string {
    if parts == [] then ""
    else if |parts| == 1 then parts[0]
    else parts[0] + [sep] + Join(parts[1..], sep)
  }

  // ----- Decimal integers -----

  const MIN_INT: int := -0x8000_0000_0000_0000
  const MAX_INT: int := 0x7FFF_FFFF_FFFF_FFFF

  predicate IsDigit(c: char) { '0' <= c <= '9' }

  predicate AllDigits(s: string) { forall c :: c in s ==> IsDigit(c) }

  function Magnitude(s: string): nat
    requires AllDigits(s)
  {
    if s == "" then 0 else
      var last := s[|s| - 1];
      assert last in s;
      10 * Magnitude(s[..|s| - 1]) + (last as int - '0' as int)
  }

  /** `strconv.Atoi` on a 64-bit machine: an optional sign, digits, and a range check. */
  function Atoi(s: string): (r: Option<int>)
    ensures r.Some? ==> MIN_INT <= r.value <= MAX_INT
  {
    var signed := s != "" && (s[0] == '-' || s[0] == '+');
    var digits := if signed then s[1..] else s;
    if digits == "" || !AllDigits(digits) then None
    else
      var n: int := if signed && s[0] == '-' then 0 - Magnitude(digits) else Magnitude(digits);
      if MIN_INT <= n <= MAX_INT then Some(n) else None
  }

  function Digit(d: nat): char
    requires d < 10
  {
    '0' + d as char
  }

  function DigitsOf(n: nat): string {
    if n < 10 then [Digit(n)] else DigitsOf(n / 10) + [Digit(n % 10)]
  }

  /** `strconv.Itoa`. */
  function Itoa(n: int): string {
    if n < 0 then "-" + DigitsOf(-n) else DigitsOf(n)
  }

  // ----- Fields of a concatenation -----

  lemma {:induction false} TokenLengthConcat(s: string, rest: string)
    requires Breaks(rest)
    ensures TokenLength(s + rest) == TokenLength(s)
  {
    if s == "" {
      assert s + rest == rest;
    } else if !IsSpace(s[0]) {
      TokenLengthConcat(s[1..], rest);
      assert (s + rest)[1..] == s[1..] + rest;
    }
  }

  /** Fields split wherever white space does. */
  lemma {:induction false} FieldsConcat(s: string, rest: string)
    requires Breaks(rest)
    ensures Fields(s + rest) == Fields(s) + Fields(rest)
    decreases |s|
  {
    hide TokenLength;
    if s == "" {
      assert s + rest == rest;
    } else if IsSpace(s[0]) {
      FieldsConcat(s[1..], rest);
      assert (s + rest)[1..] == s[1..] + rest;
    } else {
      var n := TokenLength(s);
      TokenLengthConcat(s, rest);
      FieldsConcat(s[n..], rest);
      assert (s + rest)[n..] == s[n..] + rest;
      assert (s + rest)[..n] == s[..n];
    }
  }

  lemma {:induction false} FieldsAfterSpace(gap: string, s: string)
    requires AllSpace(gap)
    ensures Fields(gap + s) == Fields(s)
  {
    if gap == "" {
      assert gap + s == s;
    } else {
      FieldsAfterSpace(gap[1..], s);
      assert (gap + s)[1..] == gap[1..] + s;
    }
  }

  lemma {:induction false} TokenIsOneField(t: string)
    requires IsToken(t)
    ensures Fields(t) == [t]
  {
    assert forall k :: 0 <= k < |t| ==> !IsSpace(t[k]);
    assert t[..TokenLength(t)] == t;
  }

  /** The first field of a string, and what surrounds it. */
  lemma {:induction false} FirstField(s: string) returns (gap: string, t: string, rest: string)
    requires Fields(s) != []
    ensures s == gap + t + rest && AllSpace(gap) && IsToken(t) && Breaks(rest)
    ensures Fields(s) == [t] + Fields(rest)
  {
    if IsSpace(s[0]) {
      gap, t, rest := FirstField(s[1..]);
      gap := [s[0]] + gap;
    } else {
      var n := TokenLength(s);
      gap, t, rest := "", s[..n], s[n..];
    }
  }

  // ----- Splitting undoes joining -----

  lemma {:induction false} FirstIndex(s: string, c: char, k: nat)
    requires k < |s| && s[k] == c && c !in s[..k]
    ensures IndexByte(s, c) == k
  {
    if k > 0 {
      assert s[0] in s[..k];
      assert s[1..][..k - 1] == s[..k][1..];
      FirstIndex(s[1..], c, k - 1);
    }
  }

  lemma {:induction false} SplitConcat(a: string, b: string, sep: char)
    ensures Split(a + [sep] + b, sep) == Split(a, sep) + Split(b, sep)
    decreases |a|
  {
    hide IndexByte;
    var s := a + [sep] + b;
    var i := IndexByte(a, sep);
    if i < 0 {
      assert s[..|a|] == a && s[|a| + 1..] == b;
      FirstIndex(s, sep, |a|);
    } else {
      assert s[..i] == a[..i] && s[i + 1..] == a[i + 1..] + [sep] + b;
      FirstIndex(s, sep, i);
      SplitConcat(a[i + 1..], b, sep);
    }
  }

  lemma {:induction false} SplitJoin(parts: seq<string>, sep: char)
    requires parts != [] && forall i :: 0 <= i < |parts| ==> sep !in parts[i]
    ensures Split(Join(parts, sep), sep) == parts
  {
    if |parts| == 1 {
    } else {
      SplitConcat(parts[0], Join(parts[1..], sep), sep);
      SplitJoin(parts[1..], sep);
      assert Split(parts[0], sep) == [parts[0]];
    }
  }

  /** Splitting loses nothing: joining the separator-free parts restores the string. */
  lemma {:induction false} JoinSplit(s: string, sep: char)
    ensures Join(Split(s, sep), sep) == s
    ensures forall i :: 0 <= i < |Split(s, sep)| ==> sep !in Split(s, sep)[i]
    decreases |s|
  {
    hide IndexByte;
    var i := IndexByte(s, sep);
    if i >= 0 {
      JoinSplit(s[i + 1..], sep);
      var rest := Split(s[i + 1..], sep);
      assert ([s[..i]] + rest)[1..] == rest;
      assert s == s[..i] + [sep] + s[i + 1..];
    }
  }

  // ----- Trimming -----

  lemma {:induction false} TrimLeftPadded(lead: string, s: string)
    requires AllSpace(lead) && (s == "" || !IsSpace(s[0]))
    ensures TrimLeft(lead + s) == s
  {
    if lead == "" {
      assert lead + s == s;
    } else {
      assert (lead + s)[1..] == lead[1..] + s;
      TrimLeftPadded(lead[1..], s);
    }
  }

  lemma {:induction false} TrimRightPadded(s: string, trail: string)
    requires AllSpace(trail) && (s == "" || !IsSpace(s[|s| - 1]))
    ensures TrimRight(s + trail) == s
  {
    if trail == "" {
      assert s + trail == s;
    } else {
      var n := |trail| - 1;
      assert (s + trail)[..|s| + n] == s + trail[..n];
      TrimRightPadded(s, trail[..n]);
    }
  }

  /** Trimming removes exactly the padding around a trimmed, non-empty text. */
  lemma TrimPadded(lead: string, s: string, trail: string)
    requires AllSpace(lead) && AllSpace(trail) && s != "" && Trimmed(s)
    ensures TrimSpace(lead + s + trail) == s
  {
    assert lead + s + trail == lead + (s + trail);
    assert (s + trail)[0] == s[0];
    TrimLeftPadded(lead, s + trail);
    TrimRightPadded(s, trail);
  }

  // ----- Parsing undoes printing -----

  lemma {:induction false} MagnitudeOfDigits(n: nat)
    ensures AllDigits(DigitsOf(n)) && DigitsOf(n) != "" && Magnitude(DigitsOf(n)) == n
  {
    if n < 10 {
      assert [Digit(n)][..0] == "";
    } else {
      MagnitudeOfDigits(n / 10);
      var s := DigitsOf(n);
      assert s[..|s| - 1] == DigitsOf(n / 10);
    }
  }

  /** Every machine integer survives printing and parsing. */
  lemma AtoiItoa(n: int)
    requires MIN_INT <= n <= MAX_INT
    ensures Atoi(Itoa(n)) == Some(n)
  {
    hide Magnitude, DigitsOf;
    if n < 0 {
      MagnitudeOfDigits(-n);
      assert Itoa(n)[0] == '-' && Itoa(n)[1..] == DigitsOf(-n);
    } else {
      MagnitudeOfDigits(n);
      assert DigitsOf(n)[0] in DigitsOf(n);
    }
  }

  // ----- What Atoi accepts -----

  function Zeros(n: nat): (s: string)
    ensures |s| == n && forall c :: c in s ==> c == '0'
  {
    if n == 0 then "" else Zeros(n - 1) + "0"
  }

  lemma DigitsOfAppend(m: nat, d: nat)
    requires m > 0 && d < 10
    ensures DigitsOf(10 * m + d) == DigitsOf(m) + [Digit(d)]
  {
  }

  lemma MagnitudeAppend(s: string, d: nat)
    requires AllDigits(s) && d < 10
    ensures AllDigits(s + [Digit(d)]) && Magnitude(s + [Digit(d)]) == 10 * Magnitude(s) + d
  {
    assert (s + [Digit(d)])[..|s|] == s;
  }

  lemma DigitsOfSmall(d: nat)
    requires d < 10
    ensures DigitsOf(d) == [Digit(d)]
  {
  }

  /** Any digits are leading zeros followed by the printed magnitude. */
  lemma {:induction false} DigitsAreCanonical(s: string) returns (z: nat)
    requires s != "" && AllDigits(s)
    ensures s == Zeros(z) + DigitsOf(Magnitude(s))
  {
    hide DigitsOf;
    var init, last := s[..|s| - 1], s[|s| - 1];
    assert last in s && forall c :: c in init ==> c in s;
    var d := last as int - '0' as int;
    assert Digit(d) == last && s == init + [last];
    MagnitudeAppend(init, d);
    DigitsOfSmall(d);
    if init == "" {
      assert Magnitude(init) == 0 && Zeros(0) == "";
      z := 0;
    } else {
      z := DigitsAreCanonical(init);
      if Magnitude(init) == 0 {
        DigitsOfSmall(0);
        assert Zeros(z + 1) == Zeros(z) + "0";
        z := z + 1;
      } else {
        DigitsOfAppend(Magnitude(init), d);
      }
    }
  }

  lemma {:induction false} MagnitudePadded(z: nat, s: string)
    requires AllDigits(s)
    ensures AllDigits(Zeros(z) + s) && Magnitude(Zeros(z) + s) == Magnitude(s)
  {
    if s == "" {
      assert Zeros(z) + s == Zeros(z);
      if z > 0 {
        MagnitudePadded(z - 1, s);
        assert Zeros(z)[..z - 1] == Zeros(z - 1) + s;
      }
    } else {
      var init := s[..|s| - 1];
      assert forall c :: c in init ==> c in s;
      MagnitudePadded(z, init);
      assert (Zeros(z) + s)[..z + |init|] == Zeros(z) + init;
    }
  }

  /** A numeral: an optional sign, then leading zeros, then the magnitude as it is printed. */
  ghost predicate IsNumeral(s: string, n: int) {
    exists sign, z :: NumeralWith(s, n, sign, z)
  }

  ghost predicate NumeralWith(s: string, n: int, sign: string, z: nat) {
    && (sign == "" || sign == "+" || sign == "-")
    && (n < 0 ==> sign == "-") && (n > 0 ==> sign != "-")
    && s == sign + (Zeros(z) + DigitsOf(if n < 0 then -n else n))
  }

  /** `Atoi` yields n exactly on the numerals of n, for n in the 64-bit range. */
  lemma AtoiExact(s: string, n: int)
    ensures Atoi(s) == Some(n) <==> IsNumeral(s, n) && MIN_INT <= n <= MAX_INT
  {
    if Atoi(s) == Some(n) {
      AtoiOnlyNumerals(s);
    }
    if IsNumeral(s, n) && MIN_INT <= n <= MAX_INT {
      var sign, z :| NumeralWith(s, n, sign, z);
      AtoiNumeral(s, n, sign, z);
    }
  }

  lemma AtoiOnlyNumerals(s: string)
    requires Atoi(s).Some?
    ensures IsNumeral(s, Atoi(s).value)
  {
    hide Magnitude, DigitsOf, Zeros;
    var signed := s[0] == '-' || s[0] == '+';
    var sign, digits := if signed then s[..1] else "", if signed then s[1..] else s;
    var z := DigitsAreCanonical(digits);
    assert s == sign + digits;
    assert NumeralWith(s, Atoi(s).value, sign, z);
  }

  lemma AtoiNumeral(s: string, n: int, sign: string, z: nat)
    requires NumeralWith(s, n, sign, z) && MIN_INT <= n <= MAX_INT
    ensures Atoi(s) == Some(n)
  {
    hide Magnitude, DigitsOf, Zeros;
    var m := if n < 0 then -n else n;
    MagnitudeOfDigits(m);
    MagnitudePadded(z, DigitsOf(m));
    var digits := Zeros(z) + DigitsOf(m);
    assert digits[0] in digits;
    if sign == "" {
      assert s == digits;
    } else {
      assert s[0] == sign[0] && s[1..] == digits;
    }
  }

  /** A printed integer holds digits and a sign only, hence neither spaces nor commas. */
  lemma ItoaCharacters(n: int)
    ensures Itoa(n) != "" && Trimmed(Itoa(n)) && ',' !in Itoa(n)
  {
    MagnitudeOfDigits(if n < 0 then -n else n);
    var s := Itoa(n);
    assert forall c :: c in s ==> IsDigit(c) || c == '-';
    assert s[0] in s && s[|s| - 1] in s;
  }
}
