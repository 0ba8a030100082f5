/** Text helpers the error package leans on: strings.Join, the quoting shared by
    fmt's %q verb and encoding/json, splitting a text into lines, and the
    filepath.Base / %d formatting that builds the caller string. */
module Text {

  datatype Maybe<T> = Nothing | Just(value: T)

  /** strings.Join: the parts in order, `sep` between neighbours. */
  function JoinWith(parts: seq<string>, sep: string): string
    decreases |parts|
  {
    if parts == [] then ""
    else if |parts| == 1 then parts[0]
    else parts[0] + sep + JoinWith(parts[1..], sep)
  }

  /** A character found neither in the separator nor in any part is not in the join. */
  lemma {:induction false} JoinWithAvoids(parts: seq<string>, sep: string, c: char)
    requires c !in sep && forall i :: 0 <= i < |parts| ==> c !in parts[i]
    ensures c !in JoinWith(parts, sep)
    decreases |parts|
  {
    if |parts| > 1 {
      JoinWithAvoids(parts[1..], sep, c);
    }
  }

  /** Each part followed by `sep`, concatenated: the shape of a join whose last part is fixed. */
  function Terminated(parts: seq<string>, sep: string): string
    decreases |parts|
  {
    if parts == [] then "" else parts[0] + sep + Terminated(parts[1..], sep)
  }

  /** Joining with a known last part is the other parts, each terminated by the separator, then that part. */
  lemma {:induction false} JoinWithLast(parts: seq<string>, last: string, sep: string)
    ensures JoinWith(parts + [last], sep) == Terminated(parts, sep) + last
    decreases |parts|
  {
    if parts != [] {
      assert (parts + [last])[1..] == parts[1..] + [last];
      JoinWithLast(parts[1..], last, sep);
    }
  }

  lemma {:induction false} TerminatedConcat(a: seq<string>, b: seq<string>, sep: string)
    ensures Terminated(a + b, sep) == Terminated(a, sep) + Terminated(b, sep)
    decreases |a|
  {
    if a == [] {
      assert a + b == b;
    } else {
      assert (a + b)[1..] == a[1..] + b;
      TerminatedConcat(a[1..], b, sep);
    }
  }

  /** Escaping of one character as both fmt's %q and encoding/json write it for the
      three characters that matter to the layout: the quote, the backslash and the newline. */
  function EscapeChar(c: char): string
  {
    if c == '"' then "\\\""
    else if c == '\\' then "\\\\"
    else if c == '\n' then "\\n"
    else [c]
  }

  /** The escaped body of a quoted string; it never holds a raw newline. */
  function Escape(s: string): (r: string)
    ensures '\n' !in r
    decreases |s|
  {
    if s == [] then [] else EscapeChar(s[0]) + Escape(s[1..])
  }

  /** The inverse of Escape: Nothing on a text Escape cannot produce. */
  function Unescape(t: string): Maybe<string>
    decreases |t|
  {
    if t == [] then Just([])
    else if t[0] == '\\' then
      if |t| < 2 || !(t[1] == '"' || t[1] == '\\' || t[1] == 'n') then Nothing
      else
        var c := if t[1] == 'n' then '\n' else t[1];
        match Unescape(t[2..])
        case Just(rest) => Just([c] + rest)
        case Nothing => Nothing
    else if t[0] == '"' || t[0] == '\n' then Nothing
    else
      match Unescape(t[1..])
      case Just(rest) => Just([t[0]] + rest)
      case Nothing => Nothing
  }

  lemma {:induction false} EscapeRoundTrip(s: string)
    ensures Unescape(Escape(s)) == Just(s)
    decreases |s|
  {
    if s != [] {
      var rest := Escape(s[1..]);
      EscapeRoundTrip(s[1..]);
      var t := EscapeChar(s[0]) + rest;
      assert Escape(s) == t;
      if s[0] == '"' || s[0] == '\\' || s[0] == '\n' {
        assert t[2..] == rest;
      } else {
        assert t[1..] == rest;
      }
      assert [s[0]] + s[1..] == s;
    }
  }

  /** A string literal: the escaped text between double quotes (Go's %q, and the
      JSON string encoding/json writes). It is never empty and holds no raw newline. */
  function Quote(s: string): (r: string)
    ensures |r| >= 2 && '\n' !in r
  {
    "\"" + Escape(s) + "\""
  }

  function Unquote(q: string): Maybe<string>
  {
    if |q| >= 2 && q[0] == '"' && q[|q| - 1] == '"' then Unescape(q[1..|q| - 1]) else Nothing
  }

  /** Quoting loses nothing: the quoted text reads back as the original. */
  lemma QuoteRoundTrip(s: string)
    ensures Unquote(Quote(s)) == Just(s)
  {
    var q := Quote(s);
    assert q[1..|q| - 1] == Escape(s);
    EscapeRoundTrip(s);
  }

  /** The lines of a text: the pieces between newline characters, in order. */
  function SplitLines(s: string): (r: seq<string>)
    ensures |r| >= 1
    decreases |s|
  {
    if s == [] then [""]
    else
      var rest := SplitLines(s[1..]);
      if s[0] == '\n' then [""] + rest else [[s[0]] + rest[0]] + rest[1..]
  }

  /** A newline-free prefix is glued onto the first line of what follows it. */
  lemma {:induction false} SplitLinesPrefix(a: string, t: string)
    requires '\n' !in a
    ensures SplitLines(a + t) == [a + SplitLines(t)[0]] + SplitLines(t)[1..]
    decreases |a|
  {
    if a != [] {
      assert (a + t)[1..] == a[1..] + t;
      SplitLinesPrefix(a[1..], t);
      assert [a[0]] + (a[1..] + SplitLines(t)[0]) == a + SplitLines(t)[0];
    } else {
      var lines := SplitLines(t);
      assert a + t == t && a + lines[0] == lines[0];
      assert [lines[0]] + lines[1..] == lines;
    }
  }

  lemma SplitLinesNewline(t: string)
    ensures SplitLines("\n" + t) == [""] + SplitLines(t)
  {
    assert ("\n" + t)[1..] == t;
  }

  /** Everything after the last '/' of a path. */
  function AfterLastSlash(p: string): (r: string)
    ensures '/' !in r
    ensures p != [] && p[|p| - 1] != '/' ==> r != []
    ensures |r| <= |p| && r == p[|p| - |r|..]
    ensures |r| < |p| ==> p[|p| - |r| - 1] == '/'
    decreases |p|
  {
    if p == [] || p[|p| - 1] == '/' then [] else AfterLastSlash(p[..|p| - 1]) + [p[|p| - 1]]
  }

  function TrimTrailingSlashes(p: string): (r: string)
    ensures r == [] || r[|r| - 1] != '/'
    decreases |p|
  {
    if p != [] && p[|p| - 1] == '/' then TrimTrailingSlashes(p[..|p| - 1]) else p
  }

  /** filepath.Base with '/' as separator: "." for the empty path, "/" for a path of
      slashes, otherwise the last element with trailing slashes removed. */
  function Base(path: string): (r: string)
    ensures r != []
    ensures '/' in r ==> r == "/"
    ensures path != [] && '/' !in path ==> r == path
  {
    if path == [] then "."
    else
      var p := TrimTrailingSlashes(path);
      if p == [] then "/" else AfterLastSlash(p)
  }

  function Digit(d: nat): (c: char)
    requires d < 10
    ensures '0' <= c <= '9' && c as int - '0' as int == d
  {
    ('0' as int + d) as char
  }

  /** The number a string of decimal digits denotes. */
  function Value(s: string): nat
    requires forall i :: 0 <= i < |s| ==> '0' <= s[i] <= '9'
  {
    if s == [] then 0 else 10 * Value(s[..|s| - 1]) + (s[|s| - 1] as int - '0' as int)
  }

  /** The decimal digits of a natural number, most significant first. */
  function Digits(n: nat): (r: string)
    ensures r != [] && forall i :: 0 <= i < |r| ==> '0' <= r[i] <= '9'
  {
    if n < 10 then [Digit(n)] else Digits(n / 10) + [Digit(n % 10)]
  }

  /** The digits denote n, with no leading zero except for 0 itself. */
  lemma {:induction false} DigitsValue(n: nat)
    ensures Value(Digits(n)) == n
    ensures Digits(n)[0] == '0' <==> n == 0
  {
    var r := Digits(n);
    if n < 10 {
      assert r[..0] == [];
    } else {
      DigitsValue(n / 10);
      assert r[..|r| - 1] == Digits(n / 10);
    }
  }

  /** Go's %d for an int. */
  function Decimal(n: int): (r: string)
    ensures r != [] && forall i :: 1 <= i < |r| ==> '0' <= r[i] <= '9'
    ensures r[0] == '-' <==> n < 0
    ensures r[0] != '-' ==> '0' <= r[0] <= '9'
  {
    if n < 0 then "-" + Digits(-n) else Digits(n)
  }

  /** Reading back a decimal numeral: an optional '-' and then digits. */
  function ParseDecimal(s: string): int
    requires s != [] && forall i :: 1 <= i < |s| ==> '0' <= s[i] <= '9'
    requires s[0] != '-' ==> '0' <= s[0] <= '9'
  {
    if s[0] == '-' then -(Value(s[1..]) as int) else Value(s)
  }

  /** %d loses nothing: its text reads back as the number. */
  lemma DecimalRoundTrip(n: int)
    ensures ParseDecimal(Decimal(n)) == n
  {
    if n < 0 {
      DigitsValue(-n);
      assert Decimal(n)[1..] == Digits(-n);
    } else {
      DigitsValue(n);
    }
  }
}
