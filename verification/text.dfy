/** The Python text operations the modelled code relies on: `str(n)` and `int(text)` for
    natural numbers, the texts `int(text, 16)` accepts, `strip`, `lower`, and the code-point
    order `sorted` uses on names.  Characters are ASCII. */
module PyText {

  datatype Option<+T> = None | Some(value: T)

  // ---- decimal numbers ----

  function Digit(d: nat): char
    requires d < 10
  {
    "0123456789"[d]
  }

  function DigitValue(c: char): int {
    c as int - '0' as int
  }

  /** `str(n)` */
  function Dec(n: nat): string {
    if n < 10 then [Digit(n)] else Dec(n / 10) + [Digit(n % 10)]
  }

  /** `int(s)` for a text of digits */
  function ParseDec(s: string): int {
    if s == [] then 0 else 10 * ParseDec(s[..|s| - 1]) + DigitValue(s[|s| - 1])
  }

  lemma {:induction false} DecRoundTrip(n: nat)
    ensures ParseDec(Dec(n)) == n
  {
    if n < 10 {
      assert Dec(n)[..0] == [];
    } else {
      DecRoundTrip(n / 10);
      assert Dec(n)[..|Dec(n)| - 1] == Dec(n / 10);
    }
  }

  lemma DecInjective(a: nat, b: nat)
    ensures Dec(a) == Dec(b) <==> a == b
  {
    DecRoundTrip(a);
    DecRoundTrip(b);
  }

  // ---- hexadecimal numbers ----

  predicate HexDigit(c: char) {
    '0' <= c <= '9' || 'a' <= c <= 'f' || 'A' <= c <= 'F'
  }

  /** Digits with single underscores between them */
  predicate HexRun(s: string) {
    && s != []
    && HexDigit(s[0])
    && HexDigit(s[|s| - 1])
    && (forall i | 0 <= i < |s| :: HexDigit(s[i]) || s[i] == '_')
    && (forall i | 0 < i < |s| :: s[i] == '_' ==> s[i - 1] != '_')
  }

  /** `int(s, 16)` returns a number instead of raising */
  predicate ParsesAsHex(s: string) {
    var body := Strip(s);
    var unsigned := if body != [] && body[0] in "+-" then body[1..] else body;
    var digits :=
      if |unsigned| >= 2 && unsigned[0] == '0' && unsigned[1] in "xX" then
        if |unsigned| > 2 && unsigned[2] == '_' then unsigned[3..] else unsigned[2..]
      else
        unsigned;
    HexRun(digits)
  }

  predicate Space(c: char) {
    c == ' ' || 9 <= c as int <= 13 || 28 <= c as int <= 31
  }

  /** `s.strip()` */
  function Strip(s: string): string {
    if s != [] && Space(s[0]) then Strip(s[1..])
    else if s != [] && Space(s[|s| - 1]) then Strip(s[..|s| - 1])
    else s
  }

  predicate LetterOrDigit(c: char) {
    '0' <= c <= '9' || 'a' <= c <= 'z' || 'A' <= c <= 'Z'
  }

  /** A text of letters and digits without a second prefix is accepted exactly if all are
      hexadecimal digits. */
  lemma PlainTextParsesIff(s: string)
    requires s != [] && (forall i | 0 <= i < |s| :: LetterOrDigit(s[i]))
    requires !(|s| >= 2 && s[0] == '0' && s[1] in "xX")
    ensures ParsesAsHex(s) <==> forall i | 0 <= i < |s| :: HexDigit(s[i])
  {
    assert LetterOrDigit(s[0]) && LetterOrDigit(s[|s| - 1]);
    assert Strip(s) == s;
    assert forall i | 0 <= i < |s| :: s[i] != '_' by {
      forall i | 0 <= i < |s| ensures s[i] != '_' { assert LetterOrDigit(s[i]); }
    }
  }

  function LowerChar(c: char): char {
    if 'A' <= c <= 'Z' then (c as int + 32) as char else c
  }

  /** `s.lower()` */
  function Lower(s: string): string {
    seq(|s|, i requires 0 <= i < |s| => LowerChar(s[i]))
  }

  /** `hexdigest()` has this form: 64 lower-case hexadecimal digits */
  predicate IsDigest(s: string) {
    |s| == 64 && forall i | 0 <= i < |s| :: '0' <= s[i] <= '9' || 'a' <= s[i] <= 'f'
  }

  /** A checksum file holds the digest and a line break; reading it back yields the digest. */
  lemma DigestFileReadsBack(d: string)
    requires IsDigest(d)
    ensures Strip(d + "\n") == d && ParsesAsHex(d) && Lower(d) == d
  {
    var text := d + "\n";
    assert text[0] == d[0] && text[|text| - 1] == '\n';
    assert text[..|text| - 1] == d;
    assert Strip(d) == d;
    assert HexRun(d);
  }

  // ---- order of names ----

  /** `a` comes strictly before `b` in code-point order. */
  predicate Before(a: string, b: string) {
    b != [] && (a == [] || a[0] < b[0] || (a[0] == b[0] && Before(a[1..], b[1..])))
  }

  lemma BeforeTransitive(a: string, b: string, c: string)
    requires Before(a, b) && Before(b, c)
    ensures Before(a, c)
  {
  }

  lemma {:induction false} BeforeTotal(a: string, b: string)
    ensures Before(a, b) || a == b || Before(b, a)
    ensures !(Before(a, b) && Before(b, a)) && !Before(a, a)
  {
    if a != [] && b != [] {
      BeforeTotal(a[1..], b[1..]);
      assert a == [a[0]] + a[1..] && b == [b[0]] + b[1..];
    }
    if a != [] {
      BeforeIrreflexive(a);
    }
  }

  lemma BeforeIrreflexive(a: string)
    ensures !Before(a, a)
  {
  }

  /** A common prefix does not matter. */
  lemma {:induction false} BeforeAfterPrefix(p: string, a: string, b: string)
    ensures Before(p + a, p + b) == Before(a, b)
  {
    if p == [] {
      assert p + a == a && p + b == b;
    } else {
      BeforeAfterPrefix(p[1..], a, b);
      assert (p + a)[1..] == p[1..] + a && (p + b)[1..] == p[1..] + b;
    }
  }
}
