/** The JavaScript string operations the frontend pages rely on, on strings as
    sequences of characters: `toLowerCase` / `toUpperCase` (ASCII and the
    Latin-1 letters), `includes`, `trim`, `split(sep)[0]`, `String(n)` for
    integers, `padStart(2, "0")` and `slice(-2)`. */
module JsText {

  /** The characters `trim` and `\s` treat as white space: ECMAScript's
      WhiteSpace and LineTerminator productions. */
  predicate IsJsWhitespace(c: char)
  {
    c == ' ' || c == '\t' || c == '\n' || c == '\r'
    || c as int == 0x0B || c as int == 0x0C || c as int == 0xA0 || c as int == 0x1680
    || (0x2000 <= c as int <= 0x200A) || c as int == 0x2028 || c as int == 0x2029
    || c as int == 0x202F || c as int == 0x205F || c as int == 0x3000 || c as int == 0xFEFF
  }

  /** The characters a regular-expression `.` does not match. */
  predicate IsLineTerminator(c: char)
  {
    c == '\n' || c == '\r' || c as int == 0x2028 || c as int == 0x2029
  }

  predicate IsAsciiUpper(c: char) { 'A' <= c <= 'Z' }
  predicate IsAsciiLower(c: char) { 'a' <= c <= 'z' }
  predicate IsAsciiDigit(c: char) { '0' <= c <= '9' }

  function LowerChar(c: char): char
  {
    if IsAsciiUpper(c) || (0xC0 <= c as int <= 0xDE && c as int != 0xD7) then (c as int + 32) as char else c
  }

  function UpperChar(c: char): char
  {
    if IsAsciiLower(c) || (0xE0 <= c as int <= 0xFE && c as int != 0xF7) then (c as int - 32) as char else c
  }

  /** `toLowerCase`: maps every character independently. */
  function ToLower(s: string): (r: string)
    ensures |r| == |s|
    ensures forall i :: 0 <= i < |s| ==> r[i] == LowerChar(s[i])
  {
    seq(|s|, i requires 0 <= i < |s| => LowerChar(s[i]))
  }

  /** `toUpperCase`: maps every character independently. */
  function ToUpper(s: string): (r: string)
    ensures |r| == |s|
    ensures forall i :: 0 <= i < |s| ==> r[i] == UpperChar(s[i])
  {
    seq(|s|, i requires 0 <= i < |s| => UpperChar(s[i]))
  }

  /** Lowercasing twice is lowercasing once. */
  lemma ToLowerIdempotent(s: string)
    ensures ToLower(ToLower(s)) == ToLower(s)
  {
  }

  /** `s.includes(t)`: `t` occurs in `s` at some position. */
  predicate Includes(s: string, t: string)
  {
    (|t| <= |s| && s[..|t|] == t) || (|s| > 0 && Includes(s[1..], t))
  }

  /** `t` occurs in `s` starting at position `i`. */
  predicate OccursAt(s: string, t: string, i: nat)
  {
    i + |t| <= |s| && s[i..i + |t|] == t
  }

  /** An occurrence at position `i` makes `includes` true. */
  lemma {:induction false} IncludesAt(s: string, t: string, i: nat)
    requires OccursAt(s, t, i)
    ensures Includes(s, t)
    decreases i
  {
    if i > 0 {
      assert s[1..][i - 1..i - 1 + |t|] == s[i..i + |t|];
      assert OccursAt(s[1..], t, i - 1);
      IncludesAt(s[1..], t, i - 1);
    }
  }

  /** `includes` holds only through an occurrence. */
  lemma {:induction false} IncludesWitness(s: string, t: string)
    requires Includes(s, t)
    ensures exists i: nat :: OccursAt(s, t, i)
    decreases |s|
  {
    if |t| <= |s| && s[..|t|] == t {
      assert s[0..0 + |t|] == t;
      assert OccursAt(s, t, 0);
    } else {
      IncludesWitness(s[1..], t);
      var i: nat :| OccursAt(s[1..], t, i);
      assert s[i + 1..i + 1 + |t|] == s[1..][i..i + |t|];
      assert OccursAt(s, t, i + 1);
    }
  }

  /** `includes` as a search over every position. */
  lemma IncludesCharacterized(s: string, t: string)
    ensures Includes(s, t) <==> exists i: nat :: OccursAt(s, t, i)
  {
    if Includes(s, t) {
      IncludesWitness(s, t);
    } else if exists i: nat :: OccursAt(s, t, i) {
      var i: nat :| OccursAt(s, t, i);
      IncludesAt(s, t, i);
    }
  }

  /** Every string includes the empty string, and every string includes itself. */
  lemma IncludesTrivial(s: string)
    ensures Includes(s, "") && Includes(s, s)
  {
  }

  /** A character of an included text is a character of the text it occurs in. */
  lemma IncludesCharacter(s: string, t: string, k: nat)
    requires Includes(s, t) && k < |t|
    ensures t[k] in s
  {
    IncludesWitness(s, t);
    var i: nat :| OccursAt(s, t, i);
    assert s[i + k] == s[i..i + |t|][k];
  }

  /** An occurrence of a two-character text is an adjacent pair of characters. */
  lemma IncludesPair(s: string, t: string)
    requires Includes(s, t) && |t| == 2
    ensures exists i :: 0 <= i < |s| - 1 && s[i] == t[0] && s[i + 1] == t[1]
  {
    IncludesWitness(s, t);
    var i: nat :| OccursAt(s, t, i);
    assert s[i] == s[i..i + |t|][0] && s[i + 1] == s[i..i + |t|][1];
  }

  function TrimStart(s: string): (r: string)
    ensures |r| <= |s|
  {
    if |s| > 0 && IsJsWhitespace(s[0]) then TrimStart(s[1..]) else s
  }

  function TrimEnd(s: string): (r: string)
    ensures |r| <= |s|
  {
    if |s| > 0 && IsJsWhitespace(s[|s| - 1]) then TrimEnd(s[..|s| - 1]) else s
  }

  /** `trim`: white space removed from both ends. */
  function Trim(s: string): string
  {
    TrimEnd(TrimStart(s))
  }

  lemma {:induction false} TrimStartBlank(s: string)
    ensures TrimStart(s) == [] <==> forall i :: 0 <= i < |s| ==> IsJsWhitespace(s[i])
    decreases |s|
  {
    if |s| > 0 && IsJsWhitespace(s[0]) {
      TrimStartBlank(s[1..]);
      assert forall i :: 1 <= i < |s| ==> s[i] == s[1..][i - 1];
    }
  }

  lemma {:induction false} TrimEndKeepsNonBlank(s: string)
    requires |s| > 0 && !IsJsWhitespace(s[0])
    ensures TrimEnd(s) != []
    decreases |s|
  {
    if IsJsWhitespace(s[|s| - 1]) {
      TrimEndKeepsNonBlank(s[..|s| - 1]);
    }
  }

  /** `s.trim() !== ""` exactly when `s` holds a character that is not white space. */
  lemma TrimEmptyIffBlank(s: string)
    ensures Trim(s) == [] <==> forall i :: 0 <= i < |s| ==> IsJsWhitespace(s[i])
  {
    TrimStartBlank(s);
    if TrimStart(s) != [] {
      TrimStartFirst(s);
      TrimEndKeepsNonBlank(TrimStart(s));
    }
  }

  lemma {:induction false} TrimStartFirst(s: string)
    requires TrimStart(s) != []
    ensures !IsJsWhitespace(TrimStart(s)[0])
    decreases |s|
  {
    if |s| > 0 && IsJsWhitespace(s[0]) {
      TrimStartFirst(s[1..]);
    }
  }

  /** `s.split(sep)[0]`: the text before the first `sep`, or all of `s`. */
  function BeforeFirst(s: string, sep: char): (r: string)
    ensures |r| <= |s| && r == s[..|r|]
    ensures sep !in r
    ensures r == s || s[|r|] == sep
  {
    if |s| == 0 then []
    else if s[0] == sep then []
    else [s[0]] + BeforeFirst(s[1..], sep)
  }

  function DigitChar(d: nat): char
    requires d < 10
  {
    ('0' as int + d) as char
  }

  /** Decimal digits of a natural number, most significant first, without leading zeros. */
  function Natural(n: nat): (r: string)
    ensures |r| >= 1
    ensures forall i :: 0 <= i < |r| ==> IsAsciiDigit(r[i])
  {
    if n < 10 then [DigitChar(n)] else Natural(n / 10) + [DigitChar(n % 10)]
  }

  /** `String(n)` / `n.toString()` for an integer. */
  function DecimalString(n: int): string
  {
    if n < 0 then "-" + Natural(-n) else Natural(n)
  }

  /** `padStart(2, "0")`. */
  function PadStart2(s: string): (r: string)
    ensures |r| == if |s| >= 2 then |s| else 2
  {
    if |s| >= 2 then s else seq(2 - |s|, _ => '0') + s
  }

  /** `slice(-2)`: the last two characters, or the whole string when shorter. */
  function SliceLast2(s: string): (r: string)
    ensures |r| == if |s| >= 2 then 2 else |s|
  {
    if |s| >= 2 then s[|s| - 2..] else s
  }

  /** Two decimal digits for the numbers 0 to 99 after padding. */
  lemma PaddedTwoDigits(n: nat)
    requires n < 100
    ensures PadStart2(Natural(n)) == [DigitChar(n / 10), DigitChar(n % 10)]
  {
    if n >= 10 {
      assert Natural(n / 10) == [DigitChar(n / 10)];
    }
  }

  /** The last two characters of a number of at least two digits are its
      last two digits. */
  lemma LastTwoDigits(n: nat)
    requires n >= 10
    ensures SliceLast2(Natural(n)) == PadStart2(Natural(n % 100))
  {
    PaddedTwoDigits(n % 100);
    TensAndUnits(n);
    var q := n / 10;
    if q < 10 {
      assert Natural(n) == [DigitChar(q), DigitChar(n % 10)];
    } else {
      var front := Natural(q / 10);
      assert Natural(n) == front + [DigitChar(q % 10), DigitChar(n % 10)];
      assert (front + [DigitChar(q % 10), DigitChar(n % 10)])[|front|..] == [DigitChar(q % 10), DigitChar(n % 10)];
    }
  }

  /** The last two decimal digits of `n` are those of `n % 100`. */
  lemma TensAndUnits(n: nat)
    ensures (n % 100) / 10 == (n / 10) % 10 && (n % 100) % 10 == n % 10
    ensures n < 100 ==> n % 100 == n
  {
    var a, r := n / 100, n % 100;
    var t, u := r / 10, r % 10;
    assert r == 10 * t + u && 0 <= u < 10 && 0 <= t < 10;
    assert n == 10 * (10 * a + t) + u;
    DivTen(n, 10 * a + t, u);
    DivTen(10 * a + t, a, t);
  }

  /** Euclidean division by ten has a unique quotient and remainder. */
  lemma DivTen(n: nat, q: nat, u: nat)
    requires n == 10 * q + u && u < 10
    ensures n / 10 == q && n % 10 == u
  {
  }
}
