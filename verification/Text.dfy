/** String operations of Rust's standard library that several components rely on. */
module Text {
  datatype Option<+T> = None | Some(value: T)

  /** `s.split_once(c)`: cut at the first `c`. */
  function SplitOnce(s: string, c: char): (r: Option<(string, string)>)
    ensures r.None? <==> c !in s
    ensures r.Some? ==> c !in r.value.0 && s == r.value.0 + [c] + r.value.1
  {
    if s == [] then None
    else if s[0] == c then Some(([], s[1..]))
    else
      match SplitOnce(s[1..], c)
      case None => None
      case Some((a, b)) => Some(([s[0]] + a, b))
  }

  /** `s.rsplit_once(c)`: cut at the last `c`. */
  function RSplitOnce(s: string, c: char): (r: Option<(string, string)>)
    ensures r.None? <==> c !in s
    ensures r.Some? ==> c !in r.value.1 && s == r.value.0 + [c] + r.value.1
  {
    if s == [] then None
    else
      var n := |s| - 1;
      if s[n] == c then Some((s[..n], []))
      else
        match RSplitOnce(s[..n], c)
        case None => None
        case Some((a, b)) => assert s[..n] + [s[n]] == s; Some((a, b + [s[n]]))
  }

  /** Cutting at the first separator recovers the two halves exactly. */
  lemma {:induction false} SplitOnceAt(a: string, c: char, b: string)
    requires c !in a
    ensures SplitOnce(a + [c] + b, c) == Some((a, b))
  {
    var s := a + [c] + b;
    assert s[|a|] == c;
    var (x, y) := SplitOnce(s, c).value;
    FirstCutUnique(a, b, x, y, c);
  }

  lemma {:induction false} FirstCutUnique(a: string, b: string, x: string, y: string, c: char)
    requires c !in a && c !in x
    requires a + [c] + b == x + [c] + y
    ensures a == x && b == y
  {
    var s := a + [c] + b;
    assert s[|a|] == c && s[|x|] == c;
    assert forall i :: 0 <= i < |a| ==> s[i] == a[i];
    assert forall i :: 0 <= i < |x| ==> s[i] == x[i];
    assert |a| == |x|;
    assert a == s[..|a|] && x == s[..|x|];
    assert b == s[|a| + 1..] && y == s[|x| + 1..];
  }

  /** Cutting at the last separator recovers the two halves exactly. */
  lemma {:induction false} RSplitOnceAt(a: string, c: char, b: string)
    requires c !in b
    ensures RSplitOnce(a + [c] + b, c) == Some((a, b))
  {
    var s := a + [c] + b;
    assert s[|a|] == c;
    var (x, y) := RSplitOnce(s, c).value;
    LastCutUnique(a, b, x, y, c);
  }

  lemma {:induction false} LastCutUnique(a: string, b: string, x: string, y: string, c: char)
    requires c !in b && c !in y
    requires a + [c] + b == x + [c] + y
    ensures a == x && b == y
  {
    var s := a + [c] + b;
    assert s[|a|] == c && s[|x|] == c;
    assert forall i :: |a| < i < |s| ==> s[i] == b[i - |a| - 1];
    assert forall i :: |x| < i < |s| ==> s[i] == y[i - |x| - 1];
    assert |a| == |x|;
    assert a == s[..|a|] && x == s[..|x|];
    assert b == s[|a| + 1..] && y == s[|x| + 1..];
  }

  // ----- Decimal numerals -----

  predicate IsDigit(c: char) { '0' <= c <= '9' }

  function Digit(d: nat): (c: char)
    requires d < 10
    ensures IsDigit(c) && DigitValue(c) == d
  {
    ('0' as int + d) as char
  }

  function DigitValue(c: char): (d: nat)
    requires IsDigit(c)
    ensures d < 10
  {
    c as int - '0' as int
  }

  predicate AllDigits(s: string) { forall i :: 0 <= i < |s| ==> IsDigit(s[i]) }

  /** `n.to_string()`. */
  function Decimal(n: nat): (s: string)
    ensures s != [] && AllDigits(s)
  {
    if n < 10 then [Digit(n)] else Decimal(n / 10) + [Digit(n % 10)]
  }

  function DecimalValue(s: string): nat
    requires AllDigits(s)
  {
    if s == [] then 0 else 10 * DecimalValue(s[..|s| - 1]) + DigitValue(s[|s| - 1])
  }

  lemma {:induction false} DecimalRoundTrip(n: nat)
    ensures DecimalValue(Decimal(n)) == n
  {
    if n >= 10 {
      DecimalRoundTrip(n / 10);
      var s := Decimal(n);
      assert s[..|s| - 1] == Decimal(n / 10);
    }
  }

  /** No numeral but 0 starts with a zero. */
  lemma {:induction false} DecimalPlain(n: nat)
    ensures Decimal(n)[0] == '0' <==> n == 0
  {
    if n >= 10 {
      DecimalPlain(n / 10);
      assert Decimal(n)[0] == Decimal(n / 10)[0];
    }
  }

  lemma {:induction false} DecimalInjective(m: nat, n: nat)
    requires Decimal(m) == Decimal(n)
    ensures m == n
  {
    DecimalRoundTrip(m);
    DecimalRoundTrip(n);
  }

  lemma {:induction false} DigitsExclude(s: string, c: char)
    requires AllDigits(s) && !IsDigit(c)
    ensures c !in s
  {
  }

  // ----- White space -----

  /** The code points with the Unicode White_Space property, which `char::is_whitespace` tests. */
  predicate IsWhitespace(c: char) {
    var u := c as int;
    || 0x09 <= u <= 0x0D || u == 0x20 || u == 0x85 || u == 0xA0 || u == 0x1680
    || 0x2000 <= u <= 0x200A || u == 0x2028 || u == 0x2029 || u == 0x202F || u == 0x205F || u == 0x3000
  }

  function TrimStart(s: string): (r: string)
    ensures r != [] ==> !IsWhitespace(r[0])
    ensures |r| <= |s| && s[|s| - |r|..] == r
  {
    if s != [] && IsWhitespace(s[0]) then TrimStart(s[1..]) else s
  }

  function TrimEnd(s: string): (r: string)
    ensures r != [] ==> !IsWhitespace(r[|r| - 1])
    ensures r <= s
  {
    if s != [] && IsWhitespace(s[|s| - 1]) then TrimEnd(s[..|s| - 1]) else s
  }

  function Trim(s: string): string { TrimStart(TrimEnd(s)) }

  predicate AllBlank(s: string) { forall i :: 0 <= i < |s| ==> IsWhitespace(s[i]) }

  /** Trimming removes white space only. */
  lemma {:induction false} TrimEndRemoves(s: string)
    ensures AllBlank(s[|TrimEnd(s)|..])
  {
    if s != [] && IsWhitespace(s[|s| - 1]) {
      var n := |s| - 1;
      TrimEndRemoves(s[..n]);
      assert s[|TrimEnd(s)|..] == s[..n][|TrimEnd(s[..n])|..] + [s[n]];
    }
  }

  lemma {:induction false} TrimStartRemoves(s: string)
    ensures AllBlank(s[..|s| - |TrimStart(s)|])
  {
    if s != [] && IsWhitespace(s[0]) {
      TrimStartRemoves(s[1..]);
      assert s[..|s| - |TrimStart(s)|] == [s[0]] + s[1..][..|s| - 1 - |TrimStart(s)|];
    }
  }

  /** `s.trim().is_empty()`. */
  method TrimsToNothing(s: string) returns (r: bool)
    ensures r <==> AllBlank(s)
  {
    var e := TrimEnd(s);
    r := TrimStart(e) == [];
    TrimEndRemoves(s);
    TrimStartRemoves(e);
    assert s == e + s[|e|..] && (r ==> e[..|e|] == e);
  }

  /** Only a string without white space at either end is its own trimmed form. */
  lemma {:induction false} TrimFixed(s: string)
    ensures Trim(s) == s <==> s == [] || (!IsWhitespace(s[0]) && !IsWhitespace(s[|s| - 1]))
  {
  }

  /** Removing blanks around a string with none at its ends gives that string back. */
  lemma {:induction false} TrimPadded(left: string, s: string, right: string)
    requires s == [] || (!IsWhitespace(s[0]) && !IsWhitespace(s[|s| - 1]))
    requires forall i :: 0 <= i < |left| ==> IsWhitespace(left[i])
    requires forall i :: 0 <= i < |right| ==> IsWhitespace(right[i])
    ensures Trim(left + s + right) == s
  {
    if s == [] {
      TrimEndBlank(left + s + right);
    } else {
      TrimEndPadded(left + s, right);
      TrimStartPadded(left, s);
    }
  }

  lemma {:induction false} TrimEndPadded(s: string, right: string)
    requires s != [] && !IsWhitespace(s[|s| - 1])
    requires forall i :: 0 <= i < |right| ==> IsWhitespace(right[i])
    ensures TrimEnd(s + right) == s
  {
    if right == [] {
      assert s + right == s;
    } else {
      var n := |right| - 1;
      assert (s + right)[..|s + right| - 1] == s + right[..n];
      TrimEndPadded(s, right[..n]);
    }
  }

  lemma {:induction false} TrimEndBlank(s: string)
    requires forall i :: 0 <= i < |s| ==> IsWhitespace(s[i])
    ensures TrimEnd(s) == []
  {
  }

  lemma {:induction false} TrimStartPadded(left: string, s: string)
    requires s == [] || !IsWhitespace(s[0])
    requires forall i :: 0 <= i < |left| ==> IsWhitespace(left[i])
    ensures TrimStart(left + s) == s
  {
    if left == [] {
      assert left + s == s;
    } else {
      assert (left + s)[1..] == left[1..] + s;
      TrimStartPadded(left[1..], s);
    }
  }

  /** `to_ascii_lowercase`. */
  function LowerAscii(s: string): (r: string)
    ensures |r| == |s|
    ensures forall i :: 0 <= i < |s| ==> r[i] == LowerChar(s[i])
  {
    if s == [] then [] else [LowerChar(s[0])] + LowerAscii(s[1..])
  }

  function LowerChar(c: char): char {
    if 'A' <= c <= 'Z' then (c as int + 32) as char else c
  }

  lemma {:induction false} LowerNotBlank(c: char)
    requires 'a' <= c <= 'z'
    ensures !IsWhitespace(c) && LowerChar(c) == c
  {
  }

  lemma {:induction false} LowerCaseFixed(s: string)
    requires forall i :: 0 <= i < |s| ==> 'a' <= s[i] <= 'z'
    ensures LowerAscii(s) == s && Trim(s) == s
  {
    forall i | 0 <= i < |s| ensures LowerAscii(s)[i] == s[i] && !IsWhitespace(s[i]) { LowerNotBlank(s[i]); }
    TrimFixed(s);
  }
}
