/** Rust's `{:?}` text of strings, optional strings and lists of strings, and that it can be read back. Which
    characters are printable is left open. */
module DebugText {
  import opened Text

  // ----- Hexadecimal code points -----

  function HexDigit(d: nat): (c: char)
    requires d < 16
    ensures c != '}'
  {
    if d < 10 then ('0' as int + d) as char else ('a' as int + d - 10) as char
  }

  function Hex(n: nat): (s: string)
    ensures s != [] && '}' !in s
  {
    if n < 16 then [HexDigit(n)] else Hex(n / 16) + [HexDigit(n % 16)]
  }

  lemma {:induction false} HexInjective(m: nat, n: nat)
    requires Hex(m) == Hex(n)
    ensures m == n
  {
    var s := Hex(m);
    assert s[|s| - 1] == HexDigit(m % 16) == HexDigit(n % 16);
    assert m % 16 == n % 16;
    if m >= 16 && n >= 16 {
      assert s[..|s| - 1] == Hex(m / 16) == Hex(n / 16);
      HexInjective(m / 16, n / 16);
    }
  }

  // ----- One character -----

  /** The letter after the backslash of a short escape. */
  function Short(c: char): Option<char> {
    if c == '\0' then Some('0') else if c == '\t' then Some('t') else if c == '\r' then Some('r')
    else if c == '\n' then Some('n') else if c == '\\' then Some('\\') else if c == '"' then Some('"') else None
  }

  function Escape(printable: char -> bool, c: char): (r: string)
    ensures r != [] && r[0] != '"'
  {
    if Short(c).Some? then ['\\', Short(c).value]
    else if printable(c) then [c]
    else ['\\', 'u', '{'] + Hex(c as int) + ['}']
  }

  /** The six short escapes, and the two ways of writing any other character. */
  lemma {:induction false} EscapeTexts(printable: char -> bool, c: char)
    ensures Escape(printable, '\n') == "\\n" && Escape(printable, '\r') == "\\r" && Escape(printable, '\t') == "\\t"
    ensures Escape(printable, '\0') == "\\0" && Escape(printable, '\\') == "\\\\" && Escape(printable, '"') == "\\\""
    ensures c !in {'\n', '\r', '\t', '\0', '\\', '"'} ==>
              Escape(printable, c) == if printable(c) then [c] else "\\u{" + Hex(c as int) + "}"
  {
  }

  lemma {:induction false} LongEscapeUnique(c: char, x: string, d: char, y: string)
    requires ['\\', 'u', '{'] + Hex(c as int) + ['}'] + x == ['\\', 'u', '{'] + Hex(d as int) + ['}'] + y
    ensures c == d && x == y
  {
    var s := ['\\', 'u', '{'] + Hex(c as int) + ['}'] + x;
    assert s[3..] == Hex(c as int) + ['}'] + x && s[3..] == Hex(d as int) + ['}'] + y;
    FirstCutUnique(Hex(c as int), x, Hex(d as int), y, '}');
    HexInjective(c as int, d as int);
  }

  lemma {:induction false} PlainUnique(c: char, x: string, d: char, y: string)
    requires [c] + x == [d] + y
    ensures c == d && x == y
  {
    assert ([c] + x)[0] == c && ([c] + x)[1..] == x && ([d] + y)[0] == d && ([d] + y)[1..] == y;
  }

  /** The second character of an escape tells which kind it is. */
  lemma {:induction false} EscapeHead(printable: char -> bool, c: char, x: string)
    ensures
      var s := Escape(printable, c) + x;
      if Short(c).Some? then |s| >= 2 && s[0] == '\\' && s[1] == Short(c).value && s[2..] == x
      else if printable(c) then s[0] == c && c != '\\' && s[1..] == x
      else |s| >= 2 && s[0] == '\\' && s[1] == 'u'
  {
  }

  /** No escape is the beginning of another, so the first character of a text can be read back. */
  lemma {:induction false} EscapeUnique(printable: char -> bool, c: char, x: string, d: char, y: string)
    requires Escape(printable, c) + x == Escape(printable, d) + y
    ensures c == d && x == y
  {
    EscapeHead(printable, c, x);
    EscapeHead(printable, d, y);
    if Short(c).None? && Short(d).None? && !printable(c) && !printable(d) { LongEscapeUnique(c, x, d, y); }
  }

  // ----- A quoted string -----

  function Escaped(printable: char -> bool, s: string): string {
    if s == [] then [] else Escape(printable, s[0]) + Escaped(printable, s[1..])
  }

  function Quote(printable: char -> bool, s: string): string {
    ['"'] + Escaped(printable, s) + ['"']
  }

  lemma {:induction false} EscapedUnique(printable: char -> bool, s: string, x: string, t: string, y: string)
    requires Escaped(printable, s) + ['"'] + x == Escaped(printable, t) + ['"'] + y
    ensures s == t && x == y
  {
    EscapedHead(printable, s, x);
    EscapedHead(printable, t, y);
    if s == [] && t == [] {
      PlainUnique('"', x, '"', y);
    } else if s != [] && t != [] {
      var rs, rt := Escaped(printable, s[1..]) + ['"'] + x, Escaped(printable, t[1..]) + ['"'] + y;
      EscapeUnique(printable, s[0], rs, t[0], rt);
      EscapedUnique(printable, s[1..], x, t[1..], y);
      assert s == [s[0]] + s[1..] && t == [t[0]] + t[1..];
    }
  }

  lemma {:induction false} EscapedHead(printable: char -> bool, s: string, x: string)
    ensures
      var r := Escaped(printable, s) + ['"'] + x;
      if s == [] then r == ['"'] + x
      else r[0] != '"' && r == Escape(printable, s[0]) + (Escaped(printable, s[1..]) + ['"'] + x)
  {
  }

  /** A quoted string at the head of a text can be read back. */
  lemma {:induction false} QuoteUnique(printable: char -> bool, s: string, x: string, t: string, y: string)
    requires Quote(printable, s) + x == Quote(printable, t) + y
    ensures s == t && x == y
  {
    QuoteHead(printable, s, x);
    QuoteHead(printable, t, y);
    PlainUnique('"', Escaped(printable, s) + ['"'] + x, '"', Escaped(printable, t) + ['"'] + y);
    EscapedUnique(printable, s, x, t, y);
  }

  lemma {:induction false} QuoteHead(printable: char -> bool, s: string, x: string)
    ensures Quote(printable, s) + x == ['"'] + (Escaped(printable, s) + ['"'] + x)
  {
  }

  // ----- Options and lists -----

  function OptionText(printable: char -> bool, o: Option<string>): string {
    if o.Some? then "Some(" + Quote(printable, o.value) + ")" else "None"
  }

  /** The items from the second on, and the closing bracket. */
  function Tail(printable: char -> bool, ss: seq<string>): string {
    if ss == [] then "]" else ", " + Quote(printable, ss[0]) + Tail(printable, ss[1..])
  }

  function ListText(printable: char -> bool, ss: seq<string>): string {
    if ss == [] then "[]" else "[" + Quote(printable, ss[0]) + Tail(printable, ss[1..])
  }

  lemma {:induction false} After(prefix: string, rest: string)
    ensures (prefix + rest)[|prefix|..] == rest
  {
  }

  lemma {:induction false} TailHead(printable: char -> bool, ss: seq<string>)
    requires ss != []
    ensures var t := Tail(printable, ss); |t| >= 2 && t[0] == ',' && t[2..] == Quote(printable, ss[0]) + Tail(printable, ss[1..])
  {
    var sep := ", ";
    var q, r := Quote(printable, ss[0]), Tail(printable, ss[1..]);
    assert sep + q + r == sep + (q + r);
    After(sep, q + r);
  }

  lemma {:induction false} TailUnique(printable: char -> bool, ss: seq<string>, ts: seq<string>)
    requires Tail(printable, ss) == Tail(printable, ts)
    ensures ss == ts
  {
    if ss != [] { TailHead(printable, ss); }
    if ts != [] { TailHead(printable, ts); }
    if ss != [] && ts != [] {
      QuoteUnique(printable, ss[0], Tail(printable, ss[1..]), ts[0], Tail(printable, ts[1..]));
      TailUnique(printable, ss[1..], ts[1..]);
      assert ss == [ss[0]] + ss[1..] && ts == [ts[0]] + ts[1..];
    }
  }

  lemma {:induction false} ListUnique(printable: char -> bool, ss: seq<string>, ts: seq<string>)
    requires ListText(printable, ss) == ListText(printable, ts)
    ensures ss == ts
  {
    ListHead(printable, ss);
    ListHead(printable, ts);
    if ss != [] && ts != [] {
      QuoteUnique(printable, ss[0], Tail(printable, ss[1..]), ts[0], Tail(printable, ts[1..]));
      TailUnique(printable, ss[1..], ts[1..]);
      assert ss == [ss[0]] + ss[1..] && ts == [ts[0]] + ts[1..];
    }
  }

  lemma {:induction false} ListHead(printable: char -> bool, ss: seq<string>)
    ensures
      var l := ListText(printable, ss);
      |l| >= 2 && if ss == [] then l[1] == ']' else l[1] == '"' && l[1..] == Quote(printable, ss[0]) + Tail(printable, ss[1..])
  {
    if ss != [] {
      var open_ := "[";
      var q, r := Quote(printable, ss[0]), Tail(printable, ss[1..]);
      assert open_ + q + r == open_ + (q + r);
      After(open_, q + r);
      assert (q + r)[0] == '"';
    }
  }

  /** An optional string at the head of a text, up to a bar, can be read back. */
  lemma {:induction false} OptionUnique(printable: char -> bool, o: Option<string>, x: string, p: Option<string>, y: string)
    requires OptionText(printable, o) + "|" + x == OptionText(printable, p) + "|" + y
    ensures o == p && x == y
  {
    OptionHead(printable, o, x);
    OptionHead(printable, p, y);
    if o.Some? && p.Some? {
      QuoteUnique(printable, o.value, ")|" + x, p.value, ")|" + y);
      assert (")|" + x)[2..] == x && (")|" + y)[2..] == y;
    }
  }

  lemma {:induction false} Regroup(a: string, b: string, c: string, d: string, e: string)
    ensures (a + b + c) + d + e == a + (b + ((c + d) + e))
  {
  }

  lemma {:induction false} OptionHead(printable: char -> bool, o: Option<string>, x: string)
    ensures
      var t := OptionText(printable, o) + "|" + x;
      |t| >= 5 && if o.Some? then t[0] == 'S' && t[5..] == Quote(printable, o.value) + (")|" + x) else t[0] == 'N' && t[5..] == x
  {
    if o.Some? {
      var q := Quote(printable, o.value);
      Regroup("Some(", q, ")", "|", x);
      assert ")" + "|" == ")|";
      After("Some(", q + (")|" + x));
    } else {
      assert "None" + "|" == "None|";
      After("None|", x);
    }
  }
}
