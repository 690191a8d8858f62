/**
 * The JavaScript string built-ins the tool uses: `trim`, `split` on one
 * character, `parseInt(s, 10)`, `String(n)` for a natural number and
 * `padStart`. Whitespace is the ASCII part of JavaScript's whitespace set.
 */
module JsText {
  import opened Options

  /** A character matched by `\s` and removed by `trim` (ASCII only). */
  predicate IsSpace(c: char) {
    c == ' ' || c == '\t' || c == '\n' || c == '\U{000B}' || c == '\U{000C}' || c == '\r'
  }

  /** A character matched by `\d` or `[0-9]`. */
  predicate IsDigit(c: char) {
    '0' <= c <= '9'
  }

  predicate AllDigits(s: string) {
    forall k :: 0 <= k < |s| ==> IsDigit(s[k])
  }

  predicate NoSpace(s: string) {
    forall k :: 0 <= k < |s| ==> !IsSpace(s[k])
  }

  /** Number of whitespace characters at the start of s. */
  function LeadingSpaces(s: string): (n: nat)
    ensures n <= |s|
    ensures forall k :: 0 <= k < n ==> IsSpace(s[k])
    ensures n == |s| || !IsSpace(s[n])
  {
    if s != [] && IsSpace(s[0]) then 1 + LeadingSpaces(s[1..]) else 0
  }

  /** Number of whitespace characters at the end of s. */
  function TrailingSpaces(s: string): (n: nat)
    ensures n <= |s|
    ensures forall k :: |s| - n <= k < |s| ==> IsSpace(s[k])
    ensures n == |s| || !IsSpace(s[|s| - n - 1])
  {
    if s != [] && IsSpace(s[|s| - 1]) then 1 + TrailingSpaces(s[..|s| - 1]) else 0
  }

  /** Drops the leading whitespace, and only that. */
  function TrimStart(s: string): string {
    s[LeadingSpaces(s)..]
  }

  /** Drops the trailing whitespace, and only that. */
  function TrimEnd(s: string): string {
    s[..|s| - TrailingSpaces(s)]
  }

  /** `s.trim()`. */
  function Trim(s: string): (r: string)
    ensures r == [] || (!IsSpace(r[0]) && !IsSpace(r[|r| - 1]))
    ensures |r| <= |s|
    ensures NoSpace(s) ==> r == s
  {
    TrimEnd(TrimStart(s))
  }

  /** Index of the first occurrence of c in s. */
  function IndexOf(s: string, c: char): (i: nat)
    requires c in s
    ensures i < |s| && s[i] == c && c !in s[..i]
  {
    if s[0] == c then 0 else 1 + IndexOf(s[1..], c)
  }

  /** `s.split(sep)` for a one-character separator: the pieces between the
      separators, in order; an empty string gives one empty piece. */
  function Split(s: string, sep: char): (parts: seq<string>)
    ensures |parts| >= 1
    ensures forall k :: 0 <= k < |parts| ==> sep !in parts[k]
    decreases |s|
  {
    if sep in s then
      var i := IndexOf(s, sep);
      [s[..i]] + Split(s[i + 1..], sep)
    else
      [s]
  }

  /** `parts.join(sep)`, the inverse of Split. */
  function Join(parts: seq<string>, sep: char): string
    requires |parts| >= 1
  {
    if |parts| == 1 then parts[0] else parts[0] + [sep] + Join(parts[1..], sep)
  }

  /** Joining the pieces of a split gives back the original string. */
  lemma {:induction false} JoinSplit(s: string, sep: char)
    ensures Join(Split(s, sep), sep) == s
    decreases |s|
  {
    if sep in s {
      var i := IndexOf(s, sep);
      var rest := Split(s[i + 1..], sep);
      assert Split(s, sep) == [s[..i]] + rest;
      JoinCons(s[..i], rest, sep);
      JoinSplit(s[i + 1..], sep);
      assert s == s[..i] + [sep] + s[i + 1..];
    }
  }

  /** Joining a piece in front of at least one more adds the separator. */
  lemma JoinCons(p: string, rest: seq<string>, sep: char)
    requires |rest| >= 1
    ensures Join([p] + rest, sep) == p + [sep] + Join(rest, sep)
  {
    assert ([p] + rest)[0] == p && ([p] + rest)[1..] == rest;
  }

  /** The first occurrence is the one with no earlier occurrence. */
  lemma IndexOfAt(s: string, c: char, i: nat)
    requires i < |s| && s[i] == c && c !in s[..i]
    ensures IndexOf(s, c) == i
  {
    var j := IndexOf(s, c);
    assert forall k :: 0 <= k < i ==> s[k] == s[..i][k];
    assert forall k :: 0 <= k < j ==> s[k] == s[..j][k];
  }

  /** Splitting a join of separator-free pieces gives back the pieces. */
  lemma {:induction false} SplitJoin(parts: seq<string>, sep: char)
    requires |parts| >= 1
    requires forall k :: 0 <= k < |parts| ==> sep !in parts[k]
    ensures Split(Join(parts, sep), sep) == parts
  {
    if |parts| > 1 {
      var p, tail := parts[0], parts[1..];
      var rest := Join(tail, sep);
      var s := p + [sep] + rest;
      assert Join(parts, sep) == s;
      assert s[|p|] == sep && s[..|p|] == p && s[|p| + 1..] == rest;
      IndexOfAt(s, sep, |p|);
      assert Split(s, sep) == [p] + Split(rest, sep);
      SplitJoin(tail, sep);
      assert parts == [p] + tail;
    } else {
      assert Join(parts, sep) == parts[0];
    }
  }

  /** Length of the longest run of digits at the start of s (`/^\d+/`). */
  function DigitRun(s: string): (n: nat)
    ensures n <= |s| && AllDigits(s[..n])
    ensures n == |s| || !IsDigit(s[n])
  {
    if s != [] && IsDigit(s[0]) then 1 + DigitRun(s[1..]) else 0
  }

  function DigitValue(c: char): nat
    requires IsDigit(c)
  {
    c as int - '0' as int
  }

  /** The number a string of decimal digits denotes. */
  function DecimalValue(ds: string): nat
    requires AllDigits(ds)
  {
    if ds == [] then 0 else 10 * DecimalValue(ds[..|ds| - 1]) + DigitValue(ds[|ds| - 1])
  }

  /** `parseInt(s, 10)`: leading whitespace is skipped, an optional sign is
      read, then the longest run of digits; None stands for NaN, which is
      the result when no digit follows the sign. Characters after the run
      are ignored. */
  function ParseInt(s: string): Option<int> {
    ParseSigned(TrimStart(s))
  }

  function ParseSigned(t: string): Option<int> {
    var signed := t != [] && (t[0] == '-' || t[0] == '+');
    match ParseDigits(if signed then t[1..] else t)
    case None => None
    case Some(v) => Some(if signed && t[0] == '-' then -v else v)
  }

  function ParseDigits(u: string): Option<int> {
    var n := DigitRun(u);
    if n == 0 then None else Some(DecimalValue(u[..n]))
  }

  /** A digit run followed by a non-digit is read up to the non-digit. */
  lemma DigitRunPrefix(ds: string, rest: string)
    requires AllDigits(ds)
    requires rest == [] || !IsDigit(rest[0])
    ensures DigitRun(ds + rest) == |ds|
    ensures (ds + rest)[..|ds|] == ds
  {
    if ds != [] {
      assert (ds + rest)[1..] == ds[1..] + rest;
      DigitRunPrefix(ds[1..], rest);
    } else {
      assert ds + rest == rest;
    }
  }

  /** Leading whitespace is dropped by TrimStart and nothing else. */
  lemma {:induction false} TrimStartSpaces(ws: string, t: string)
    requires forall k :: 0 <= k < |ws| ==> IsSpace(ws[k])
    requires t == [] || !IsSpace(t[0])
    ensures LeadingSpaces(ws + t) == |ws|
    ensures TrimStart(ws + t) == t
  {
    if ws == [] {
      assert ws + t == t;
    } else {
      assert (ws + t)[1..] == ws[1..] + t;
      TrimStartSpaces(ws[1..], t);
    }
  }

  /** The whitespace run at the start of u ends at the first non-space. */
  lemma {:induction false} LeadingSpacesAt(u: string, n: nat)
    requires n <= |u|
    requires forall k :: 0 <= k < n ==> IsSpace(u[k])
    requires n == |u| || !IsSpace(u[n])
    ensures LeadingSpaces(u) == n
  {
    if n > 0 {
      assert forall k :: 0 <= k < n - 1 ==> u[1..][k] == u[k + 1];
      LeadingSpacesAt(u[1..], n - 1);
    }
  }

  /** The whitespace run at the end of u starts after the last non-space. */
  lemma {:induction false} TrailingSpacesAt(u: string, n: nat)
    requires n <= |u|
    requires forall k :: |u| - n <= k < |u| ==> IsSpace(u[k])
    requires n == |u| || !IsSpace(u[|u| - n - 1])
    ensures TrailingSpaces(u) == n
  {
    if n > 0 {
      var w := u[..|u| - 1];
      assert forall k :: |w| - (n - 1) <= k < |w| ==> w[k] == u[k];
      TrailingSpacesAt(w, n - 1);
    }
  }

  /** `trim` removes exactly the whitespace around the text: a text that
      neither starts nor ends with whitespace comes back whole, whatever
      whitespace surrounds it. */
  lemma TrimSpaces(ws1: string, t: string, ws2: string)
    requires forall k :: 0 <= k < |ws1| ==> IsSpace(ws1[k])
    requires forall k :: 0 <= k < |ws2| ==> IsSpace(ws2[k])
    requires t == [] || (!IsSpace(t[0]) && !IsSpace(t[|t| - 1]))
    ensures Trim(ws1 + t + ws2) == t
  {
    var s := ws1 + t + ws2;
    if t == [] {
      assert s == ws1 + ws2;
      assert forall k :: 0 <= k < |s| ==> IsSpace(s[k]) by {
        forall k | 0 <= k < |s| ensures IsSpace(s[k]) {
          if k < |ws1| { assert s[k] == ws1[k]; } else { assert s[k] == ws2[k - |ws1|]; }
        }
      }
      LeadingSpacesAt(s, |s|);
      assert TrimStart(s) == [];
    } else {
      var r := t + ws2;
      assert s == ws1 + r;
      assert r[0] == t[0];
      TrimStartSpaces(ws1, r);
      assert forall k :: |r| - |ws2| <= k < |r| ==> r[k] == ws2[k - |t|];
      assert r[|r| - |ws2| - 1] == t[|t| - 1];
      TrailingSpacesAt(r, |ws2|);
      assert r[..|r| - |ws2|] == t;
    }
  }

  /** A string that does not start with whitespace is its own TrimStart. */
  lemma TrimStartUnchanged(t: string)
    requires t == [] || !IsSpace(t[0])
    ensures TrimStart(t) == t
  {
    assert LeadingSpaces(t) == 0;
    assert t[0..] == t;
  }

  /** The digit run of digits followed by a non-digit is those digits. */
  lemma ParseDigitsPrefix(ds: string, rest: string)
    requires ds != [] && AllDigits(ds)
    requires rest == [] || !IsDigit(rest[0])
    ensures ParseDigits(ds + rest) == Some(DecimalValue(ds))
  {
    DigitRunPrefix(ds, rest);
  }

  /** `parseInt` on digits followed by anything that does not start with
      a digit: the value of the digits. */
  lemma ParseIntUnsigned(ds: string, rest: string)
    requires ds != [] && AllDigits(ds)
    requires rest == [] || !IsDigit(rest[0])
    ensures ParseInt(ds + rest) == Some(DecimalValue(ds))
  {
    var t := ds + rest;
    assert t[0] == ds[0] && IsDigit(t[0]);
    TrimStartUnchanged(t);
    assert ParseSigned(t) == ParseDigits(t);
    ParseDigitsPrefix(ds, rest);
  }

  /** The digit run of u ends at the first non-digit. */
  lemma {:induction false} DigitRunAt(u: string, n: nat)
    requires n <= |u| && AllDigits(u[..n])
    requires n == |u| || !IsDigit(u[n])
    ensures DigitRun(u) == n
  {
    if n > 0 {
      assert IsDigit(u[..n][0]);
      assert u[1..][..n - 1] == u[..n][1..];
      DigitRunAt(u[1..], n - 1);
    }
  }

  /** The same after a sign: `+` keeps the value and `-` negates it. Here
      t is the sign, n digits, then anything that does not start with a
      digit. */
  lemma ParseIntSigned(t: string, n: nat)
    requires 1 <= n < |t|
    requires t[0] == '+' || t[0] == '-'
    requires AllDigits(t[1..n + 1])
    requires n + 1 == |t| || !IsDigit(t[n + 1])
    ensures var magnitude: int := DecimalValue(t[1..n + 1]);
      ParseInt(t) == Some(if t[0] == '-' then -magnitude else magnitude)
  {
    TrimStartUnchanged(t);
    var u := t[1..];
    assert u[..n] == t[1..n + 1];
    DigitRunAt(u, n);
  }

  /** `parseInt` gives NaN when no digit follows the optional sign. */
  lemma ParseIntNaN(t: string)
    requires t == [] || (!IsSpace(t[0]) && !IsDigit(t[0]))
    requires |t| >= 1 && (t[0] == '+' || t[0] == '-') ==> |t| == 1 || !IsDigit(t[1])
    ensures ParseInt(t) == None
  {
  }

  function DigitChar(d: nat): (c: char)
    requires d < 10
    ensures IsDigit(c) && DigitValue(c) == d
  {
    ('0' as int + d) as char
  }

  /** `String(n)` for a natural number: its decimal digits, without
      leading zeros. */
  function NatToDecimal(n: nat): (s: string)
    ensures |s| >= 1 && AllDigits(s)
    ensures DecimalValue(s) == n
    ensures s[0] == '0' ==> n == 0
  {
    if n < 10 then [DigitChar(n)]
    else
      var s := NatToDecimal(n / 10) + [DigitChar(n % 10)];
      assert s[..|s| - 1] == NatToDecimal(n / 10);
      s
  }

  /** `s.padStart(len, c)`: s preceded by enough copies of c to reach
      length len; a longer s is left whole, never truncated. */
  function PadStart(s: string, len: nat, c: char): (r: string)
    ensures |r| == if |s| >= len then |s| else len
    ensures r[|r| - |s|..] == s
    ensures forall k :: 0 <= k < |r| - |s| ==> r[k] == c
  {
    if |s| >= len then s else seq(len - |s|, _ => c) + s
  }

  /** Leading zeros do not change the value of a digit string. */
  lemma {:induction false} LeadingZeros(zs: string, ds: string)
    requires forall k :: 0 <= k < |zs| ==> zs[k] == '0'
    requires AllDigits(ds)
    ensures AllDigits(zs + ds)
    ensures DecimalValue(zs + ds) == DecimalValue(ds)
    decreases |zs| + |ds|
  {
    var s := zs + ds;
    assert AllDigits(s) by {
      forall k | 0 <= k < |s| ensures IsDigit(s[k]) {
        if k < |zs| { assert s[k] == zs[k]; } else { assert s[k] == ds[k - |zs|]; }
      }
    }
    if ds == [] {
      assert s == zs;
      if zs != [] {
        LeadingZeros(zs[..|zs| - 1], []);
        assert s[..|s| - 1] == zs[..|zs| - 1] + [];
      }
    } else {
      LeadingZeros(zs, ds[..|ds| - 1]);
      assert s[..|s| - 1] == zs + ds[..|ds| - 1];
    }
  }

  /** `parseInt` reads back `String(n).padStart(len, "0")` as n: the padded
      decimal form names the same number. */
  lemma PaddedDecimalRoundTrip(n: nat, len: nat)
    ensures AllDigits(PadStart(NatToDecimal(n), len, '0'))
    ensures ParseInt(PadStart(NatToDecimal(n), len, '0')) == Some(n)
  {
    var s := NatToDecimal(n);
    var r := PadStart(s, len, '0');
    var zs := r[..|r| - |s|];
    assert r == zs + s;
    LeadingZeros(zs, s);
    ParseIntUnsigned(r, []);
    assert r + [] == r;
  }
}
