/**
 * The parts of the C library that bang.c's record logic rests on, stated on
 * character sequences: NUL-terminated strings, strncmp, strtok with a ","
 * delimiter, strtol in base 10, and int division, which truncates toward zero.
 */
module CLib {
  import opened Options

  const NUL: char := '\0'

  /** The character a C string buffer holds at position i; past the end, the terminator. */
  function CharAt(s: seq<char>, i: nat): char {
    if i < |s| then s[i] else NUL
  }

  /** The C string stored in a buffer: every character before the first NUL. */
  function CStr(s: seq<char>): (r: seq<char>)
    ensures r <= s
    ensures NUL !in r
    ensures |r| < |s| ==> s[|r|] == NUL
  {
    if s == [] || s[0] == NUL then [] else [s[0]] + CStr(s[1..])
  }

  /** At most the first n characters of s. */
  function Take(s: seq<char>, n: nat): seq<char> {
    if n <= |s| then s[..n] else s
  }

  /** A buffer without a NUL holds itself as its C string. */
  lemma {:induction false} NoNulIsWholeString(s: seq<char>)
    requires NUL !in s
    ensures CStr(s) == s
  {
    if s != [] {
      assert s[0] in s;
      assert forall c :: c in s[1..] ==> c in s;
      NoNulIsWholeString(s[1..]);
    }
  }

  // ---------------------------------------------------------------- strncmp

  /**
   * strncmp(a, b, n) == 0: compare character by character, stopping after n
   * characters, at the first difference, or at a terminator both share.
   */
  function StrNEqual(a: seq<char>, b: seq<char>, n: nat): bool {
    if n == 0 then true
    else if CharAt(a, 0) != CharAt(b, 0) then false
    else if CharAt(a, 0) == NUL then true
    else StrNEqual(a[1..], b[1..], n - 1)
  }

  /** strncmp reports equality exactly when the two C strings agree on their first n characters. */
  lemma {:induction false} StrNEqualIffPrefixesAgree(a: seq<char>, b: seq<char>, n: nat)
    ensures StrNEqual(a, b, n) <==> Take(CStr(a), n) == Take(CStr(b), n)
    decreases n
  {
    if n == 0 {
    } else if CharAt(a, 0) == NUL || CharAt(b, 0) == NUL {
      TakeOfCStr(a, n);
      TakeOfCStr(b, n);
    } else {
      TakeOfCStr(a, n);
      TakeOfCStr(b, n);
      if a[0] == b[0] {
        StrNEqualIffPrefixesAgree(a[1..], b[1..], n - 1);
        ConsInjective(a[0], Take(CStr(a[1..]), n - 1), Take(CStr(b[1..]), n - 1));
      } else {
        assert Take(CStr(a), n)[0] == a[0] != b[0] == Take(CStr(b), n)[0];
      }
    }
  }

  /** The first n > 0 characters of a C string: none if it is empty, else its first character and n - 1 more. */
  lemma TakeOfCStr(s: seq<char>, n: nat)
    requires n > 0
    ensures CharAt(s, 0) == NUL ==> Take(CStr(s), n) == []
    ensures CharAt(s, 0) != NUL ==> Take(CStr(s), n) == [s[0]] + Take(CStr(s[1..]), n - 1)
  {
    if CharAt(s, 0) != NUL {
      assert CStr(s) == [s[0]] + CStr(s[1..]);
      TakeCons(s[0], CStr(s[1..]), n);
    }
  }

  /** The first n characters of a C string that starts with c are c and n - 1 more. */
  lemma TakeCons(c: char, s: seq<char>, n: nat)
    requires n > 0
    ensures Take([c] + s, n) == [c] + Take(s, n - 1)
  {
  }

  lemma ConsInjective(c: char, s: seq<char>, t: seq<char>)
    ensures [c] + s == [c] + t <==> s == t
  {
    if [c] + s == [c] + t {
      assert s == ([c] + s)[1..];
    }
  }

  // ----------------------------------------------------------------- strtok

  /** Where strtok leaves off: the token it returns and the text after the delimiter it overwrote. */
  datatype Split = Split(token: seq<char>, rest: seq<char>)

  /** Length of the leading run of non-delimiter characters. */
  function FieldLength(s: seq<char>): (n: nat)
    ensures n <= |s|
    ensures forall i :: 0 <= i < n ==> s[i] != ','
    ensures n < |s| ==> s[n] == ','
  {
    if s == [] || s[0] == ',' then 0 else 1 + FieldLength(s[1..])
  }

  /**
   * One call of strtok(_, ","): skip leading delimiters; if nothing is left,
   * there is no token; otherwise the token runs to the next delimiter, which
   * is consumed.
   */
  function StrTok(s: seq<char>): (r: Option<Split>)
    ensures r.None? <==> forall i :: 0 <= i < |s| ==> s[i] == ','
    ensures r.Some? ==> r.value.token != [] && ',' !in r.value.token && |r.value.rest| < |s|
  {
    if s == [] then None
    else if s[0] == ',' then StrTok(s[1..])
    else
      var n := FieldLength(s);
      Some(Split(s[..n], if n < |s| then s[n + 1..] else []))
  }

  /** The tokens strtok finds in s: the maximal non-empty runs between commas. */
  function Tokens(s: seq<char>): (r: seq<seq<char>>)
    ensures forall i :: 0 <= i < |r| ==> r[i] != [] && ',' !in r[i]
    decreases |s|
  {
    match StrTok(s)
    case None => []
    case Some(sp) => [sp.token] + Tokens(sp.rest)
  }

  /** Every token that repeated strtok calls hand out, in order, starting from one call's result. */
  function TokenStream(t: Option<Split>): seq<seq<char>> {
    match t
    case None => []
    case Some(sp) => [sp.token] + Tokens(sp.rest)
  }

  /** Fields joined with "," between them: the shape of a data line. */
  function Join(fields: seq<seq<char>>): seq<char> {
    if |fields| == 0 then []
    else if |fields| == 1 then fields[0]
    else fields[0] + [','] + Join(fields[1..])
  }

  /** strtok on a leading non-empty field ending at a comma hands out that field and the text after the comma. */
  lemma StrTokField(field: seq<char>, rest: seq<char>)
    requires field != [] && ',' !in field
    ensures StrTok(field + [','] + rest) == Some(Split(field, rest))
    ensures StrTok(field) == Some(Split(field, []))
  {
    var s := field + [','] + rest;
    assert s[0] == field[0];
    assert forall i :: 0 <= i < |field| ==> s[i] == field[i] && field[i] != ',';
    assert s[|field|] == ',';
    var n := FieldLength(s);
    assert n == |field|;
    assert s[..n] == field;
    assert s[n + 1..] == rest;
    var m := FieldLength(field);
    assert m == |field|;
    assert field[..m] == field;
  }

  /** Tokenizing a line whose fields are non-empty and comma-free gives back those fields. */
  lemma {:induction false} TokensOfJoin(fields: seq<seq<char>>)
    requires forall i :: 0 <= i < |fields| ==> fields[i] != [] && ',' !in fields[i]
    ensures Tokens(Join(fields)) == fields
    decreases |fields|
  {
    if |fields| == 0 {
    } else if |fields| == 1 {
      StrTokField(fields[0], []);
      assert StrTok([]) == None;
    } else {
      StrTokField(fields[0], Join(fields[1..]));
      TokensOfJoin(fields[1..]);
    }
  }

  /** Joining NUL-free fields with commas gives a NUL-free line. */
  lemma {:induction false} JoinWithoutNul(fields: seq<seq<char>>)
    requires forall i :: 0 <= i < |fields| ==> NUL !in fields[i]
    ensures NUL !in Join(fields)
    decreases |fields|
  {
    if |fields| > 1 {
      JoinWithoutNul(fields[1..]);
    }
  }

  /** Empty fields contribute no token: a leading comma is skipped. */
  lemma {:induction false} TokensSkipEmptyField(s: seq<char>)
    ensures Tokens([','] + s) == Tokens(s)
  {
    assert ([','] + s)[1..] == s;
  }

  // ----------------------------------------------------------------- strtol

  /** The characters isspace accepts in the C locale. */
  predicate IsSpace(c: char) {
    c == ' ' || c == '\t' || c == '\n' || c == '\U{B}' || c == '\U{C}' || c == '\r'
  }

  predicate IsDigit(c: char) {
    '0' <= c <= '9'
  }

  predicate AllDigits(s: seq<char>) {
    forall i :: 0 <= i < |s| ==> IsDigit(s[i])
  }

  /** s without its leading white space. */
  function SkipSpace(s: seq<char>): (r: seq<char>)
    ensures |r| <= |s| && r == s[|s| - |r|..]
    ensures r != [] ==> !IsSpace(r[0])
  {
    if s != [] && IsSpace(s[0]) then SkipSpace(s[1..]) else s
  }

  /** The leading decimal digits of s. */
  function LeadingDigits(s: seq<char>): (r: seq<char>)
    ensures r <= s && AllDigits(r)
    ensures |r| < |s| ==> !IsDigit(s[|r|])
  {
    if s != [] && IsDigit(s[0]) then [s[0]] + LeadingDigits(s[1..]) else []
  }

  /** The value of a digit string read left to right, as strtol accumulates it. */
  function DecimalValue(ds: seq<char>): nat
    requires AllDigits(ds)
  {
    if ds == [] then 0
    else DecimalValue(ds[..|ds| - 1]) * 10 + (ds[|ds| - 1] as int - '0' as int)
  }

  /**
   * strtol(s, NULL, 10), without overflow: optional white space, an optional
   * sign, then the value of the leading digits; 0 when there are none, so a
   * field without any digit, an empty one included, reads as 0.
   */
  function Strtol(s: seq<char>): (v: int)
    ensures (forall c :: c in s ==> !IsDigit(c)) ==> v == 0
  {
    var t := SkipSpace(s);
    assert t == s[|s| - |t|..];
    assert t != [] ==> t[0] in s;
    assert |t| > 1 ==> t[1] in s;
    if t != [] && (t[0] == '-' || t[0] == '+') then
      var v: int := DecimalValue(LeadingDigits(t[1..]));
      if t[0] == '-' then -v else v
    else
      DecimalValue(LeadingDigits(t))
  }

  /** The decimal numeral of n, the way a year or month is written in the data file. */
  function Decimal(n: nat): (r: seq<char>)
    ensures r != [] && AllDigits(r)
  {
    if n < 10 then ['0' + n as char] else Decimal(n / 10) + ['0' + (n % 10) as char]
  }

  lemma {:induction false} DecimalValueOfDecimal(n: nat)
    ensures DecimalValue(Decimal(n)) == n
  {
    if n >= 10 {
      var d := Decimal(n);
      assert d[..|d| - 1] == Decimal(n / 10);
      DecimalValueOfDecimal(n / 10);
    }
  }

  /** The leading digits of a digit string followed by a non-digit are that digit string. */
  lemma {:induction false} LeadingDigitsOfField(ds: seq<char>, rest: seq<char>)
    requires AllDigits(ds)
    requires rest != [] ==> !IsDigit(rest[0])
    ensures LeadingDigits(ds + rest) == ds
    decreases |ds|
  {
    if ds != [] {
      assert (ds + rest)[1..] == ds[1..] + rest;
      LeadingDigitsOfField(ds[1..], rest);
    } else {
      assert ds + rest == rest;
    }
  }

  /** strtol reads back exactly the value of the digits a field starts with, whatever follows them. */
  lemma StrtolReadsLeadingDigits(ds: seq<char>, rest: seq<char>)
    requires ds != [] && AllDigits(ds)
    requires rest != [] ==> !IsDigit(rest[0])
    ensures Strtol(ds + rest) == DecimalValue(ds)
  {
    var s := ds + rest;
    assert s[0] == ds[0] && IsDigit(s[0]);
    StrtolUnsigned(s);
    LeadingDigitsOfField(ds, rest);
  }

  /** A string that starts with a digit is read as the value of its leading digits. */
  lemma StrtolUnsigned(s: seq<char>)
    requires s != [] && IsDigit(s[0])
    ensures Strtol(s) == DecimalValue(LeadingDigits(s))
  {
    assert !IsSpace(s[0]);
    assert SkipSpace(s) == s;
  }

  /** strtol inverts the decimal numeral, with and without a minus sign. */
  lemma StrtolOfDecimal(n: nat)
    ensures Strtol(Decimal(n)) == n
    ensures Strtol(['-'] + Decimal(n)) == -(n as int)
  {
    var d := Decimal(n);
    DecimalValueOfDecimal(n);
    LeadingDigitsOfField(d, []);
    assert d + [] == d;
    assert IsDigit(d[0]);
    StrtolUnsigned(d);
    var s := ['-'] + d;
    assert s[1..] == d;
    StrtolMinus(s);
  }

  /** A string that starts with a minus sign is read as minus the value of the digits after it. */
  lemma StrtolMinus(s: seq<char>)
    requires s != [] && s[0] == '-'
    ensures Strtol(s) == -(DecimalValue(LeadingDigits(s[1..])) as int)
  {
    assert !IsSpace(s[0]);
    assert SkipSpace(s) == s;
  }

  /** A field that does not start with a digit, a sign or white space reads as 0. */
  lemma StrtolWithoutDigits(s: seq<char>)
    requires s == [] || (!IsDigit(s[0]) && !IsSpace(s[0]) && s[0] != '-' && s[0] != '+')
    ensures Strtol(s) == 0
  {
  }

  // --------------------------------------------------------- int division

  /** C's int division by a positive divisor: the quotient truncated toward zero. */
  function CDiv(a: int, b: int): int
    requires b > 0
  {
    if a >= 0 then a / b else -((-a) / b)
  }

  /** C's % by a positive divisor: what is left after CDiv, taking the sign of the dividend. */
  function CRem(a: int, b: int): int
    requires b > 0
  {
    a - CDiv(a, b) * b
  }

  lemma CDivRem(a: int, b: int)
    requires b > 0
    ensures a == CDiv(a, b) * b + CRem(a, b)
    ensures a >= 0 ==> 0 <= CRem(a, b) < b && CDiv(a, b) >= 0
    ensures a < 0 ==> -b < CRem(a, b) <= 0 && CDiv(a, b) <= 0
  {
    var n := if a >= 0 then a else -a;
    var q := n / b;
    var r := n % b;
    EuclidNonNegative(n, b);
    NegatedProduct(q, b);
    assert CDiv(a, b) == (if a >= 0 then q else -q);
  }

  lemma EuclidNonNegative(n: nat, b: int)
    requires b > 0
    ensures n == (n / b) * b + n % b && 0 <= n % b < b && n / b >= 0
  {
  }

  lemma NegatedProduct(q: int, b: int)
    ensures (-q) * b == -(q * b)
  {
  }
}
