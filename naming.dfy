/**
 * The file naming in `runAll` of index.js: the row number, the sanitised
 * name part and the output filename `<rowNumber>_<namePart>.pdf`.
 */
module Naming {
  import opened Options
  import opened JsText

  /** `name.match(/^\d+/)[0]` when the name starts with a digit, otherwise
      `String(i + 1).padStart(2, "0")`. */
  function RowNumber(name: string, i: nat): string {
    if name != "" && DigitRun(name) > 0 then name[..DigitRun(name)]
    else PadStart(NatToDecimal(i + 1), 2, '0')
  }

  /** The row number is a non-empty run of digits. When the name starts with
      digits it is all of them; otherwise it is i + 1 in decimal, padded
      with zeros to two characters and never truncated. */
  lemma RowNumberSpec(name: string, i: nat)
    ensures var r := RowNumber(name, i);
      && r != [] && AllDigits(r)
      && (DigitRun(name) > 0 ==>
            r == name[..|r|] && (|r| == |name| || !IsDigit(name[|r|])))
      && (DigitRun(name) == 0 ==>
            var d := NatToDecimal(i + 1);
            && |r| == (if |d| >= 2 then |d| else 2)
            && r[|r| - |d|..] == d
            && (forall k :: 0 <= k < |r| - |d| ==> r[k] == '0')
            && ParseInt(r) == Some(i + 1))
  {
    if DigitRun(name) == 0 {
      PaddedDecimalRoundTrip(i + 1, 2);
    }
  }

  /** Length of the match of `^[0-9]+\s*-\s*` at the start of s, if any:
      the leading digits, optional whitespace, a dash, optional whitespace. */
  function DashPrefix(s: string): (r: Option<nat>)
    ensures r.Some? ==> 2 <= r.value <= |s|
  {
    var d := DigitRun(s);
    var w := d + LeadingSpaces(s[d..]);
    if d > 0 && w < |s| && s[w] == '-' then Some(w + 1 + LeadingSpaces(s[w + 1..])) else None
  }

  /** The `\s+` alternative of the first replace from index i on: each run
      of whitespace becomes one underscore; other characters are kept. */
  function ReplaceSpaces(s: string, i: nat): string
    requires i <= |s|
    decreases |s| - i
  {
    if i == |s| then []
    else if IsSpace(s[i]) then "_" + ReplaceSpaces(s, i + LeadingSpaces(s[i..]))
    else [s[i]] + ReplaceSpaces(s, i + 1)
  }

  /** `name.replace(/^[0-9]+\s*-\s*|\s+/g, "_")`. The anchored alternative
      can only match at index 0, so it is tried once: a dash prefix becomes
      one underscore, and the scan for whitespace runs resumes after it
      (its trailing `\s*` has taken any whitespace there). */
  function Sanitise(name: string): string {
    match DashPrefix(name)
    case Some(e) => "_" + ReplaceSpaces(name, e)
    case None => ReplaceSpaces(name, 0)
  }

  /** A character the second replace keeps: `[a-z0-9_\-]` ignoring case. */
  predicate IsSafe(c: char) {
    'a' <= c <= 'z' || 'A' <= c <= 'Z' || IsDigit(c) || c == '_' || c == '-'
  }

  predicate AllSafe(s: string) {
    forall k :: 0 <= k < |s| ==> IsSafe(s[k])
  }

  /** `s.replace(/[^a-z0-9_\-]/gi, "")`. */
  function KeepSafe(s: string): (r: string)
    ensures AllSafe(r)
    ensures |r| <= |s|
  {
    if s == [] then []
    else (if IsSafe(s[0]) then [s[0]] else []) + KeepSafe(s[1..])
  }

  /** The sanitised name used in the filename. */
  function NamePart(name: string): (r: string)
    ensures AllSafe(r)
  {
    KeepSafe(Sanitise(name))
  }

  /** The output filename of the record at row index i. */
  function Filename(name: string, i: nat): string {
    RowNumber(name, i) + "_" + NamePart(name) + ".pdf"
  }

  /** KeepSafe leaves a string of safe characters as it is, so applying it
      twice is the same as applying it once. */
  lemma {:induction false} KeepSafeOfSafe(s: string)
    requires AllSafe(s)
    ensures KeepSafe(s) == s
  {
    if s != [] {
      KeepSafeOfSafe(s[1..]);
    }
  }

  lemma KeepSafeIdempotent(s: string)
    ensures KeepSafe(KeepSafe(s)) == KeepSafe(s)
  {
    KeepSafeOfSafe(KeepSafe(s));
  }

  /** No whitespace survives the first replace. */
  lemma {:induction false} ReplaceNoSpace(s: string, i: nat)
    requires i <= |s|
    ensures NoSpace(ReplaceSpaces(s, i))
    decreases |s| - i
  {
    if i < |s| {
      if IsSpace(s[i]) {
        ReplaceNoSpace(s, i + LeadingSpaces(s[i..]));
        NoSpaceCons('_', ReplaceSpaces(s, i + LeadingSpaces(s[i..])));
      } else {
        ReplaceNoSpace(s, i + 1);
        NoSpaceCons(s[i], ReplaceSpaces(s, i + 1));
      }
    }
  }

  lemma NoSpaceCons(c: char, r: string)
    requires !IsSpace(c) && NoSpace(r)
    ensures NoSpace([c] + r)
  {
    assert forall k :: 1 <= k < |[c] + r| ==> ([c] + r)[k] == r[k - 1];
  }

  /** The characters of s that are neither whitespace nor underscores. */
  function Visible(s: string): string {
    if s == [] then []
    else (if IsSpace(s[0]) || s[0] == '_' then [] else [s[0]]) + Visible(s[1..])
  }

  lemma {:induction false} VisibleAppend(a: string, b: string)
    ensures Visible(a + b) == Visible(a) + Visible(b)
  {
    if a != [] {
      assert (a + b)[1..] == a[1..] + b;
      VisibleAppend(a[1..], b);
    } else {
      assert a + b == b;
    }
  }

  /** Replacing whitespace runs changes nothing but whitespace, and that
      only into underscores: what is visible is kept, in order. */
  lemma {:induction false} ReplaceKeepsVisible(s: string, i: nat)
    requires i <= |s|
    ensures Visible(ReplaceSpaces(s, i)) == Visible(s[i..])
    decreases |s| - i
  {
    if i < |s| {
      if IsSpace(s[i]) {
        var n := LeadingSpaces(s[i..]);
        ReplaceKeepsVisible(s, i + n);
        VisibleSpaceStep(s, i, n);
      } else {
        ReplaceKeepsVisible(s, i + 1);
        VisibleKeptStep(s, i);
      }
    }
  }

  lemma VisibleSpaceStep(s: string, i: nat, n: nat)
    requires i < |s| && IsSpace(s[i]) && n == LeadingSpaces(s[i..])
    requires Visible(ReplaceSpaces(s, i + n)) == Visible(s[i + n..])
    ensures Visible(ReplaceSpaces(s, i)) == Visible(s[i..])
  {
    calc {
      Visible(ReplaceSpaces(s, i));
      { ReplaceAtSpace(s, i); }
      Visible("_" + ReplaceSpaces(s, i + n));
      { VisibleUnderscore(ReplaceSpaces(s, i + n)); }
      Visible(s[i + n..]);
      { VisibleSkipRun(s, i); }
      Visible(s[i..]);
    }
  }

  lemma ReplaceAtSpace(s: string, i: nat)
    requires i < |s| && IsSpace(s[i])
    ensures ReplaceSpaces(s, i) == "_" + ReplaceSpaces(s, i + LeadingSpaces(s[i..]))
  {
  }

  lemma VisibleSkipRun(s: string, i: nat)
    requires i <= |s|
    ensures Visible(s[i..]) == Visible(s[i + LeadingSpaces(s[i..])..])
  {
    var n := LeadingSpaces(s[i..]);
    SpacesFrom(s, i, n);
    VisibleSkipSpaces(s, i, i + n);
  }

  lemma VisibleKeptStep(s: string, i: nat)
    requires i < |s| && !IsSpace(s[i])
    requires Visible(ReplaceSpaces(s, i + 1)) == Visible(s[i + 1..])
    ensures Visible(ReplaceSpaces(s, i)) == Visible(s[i..])
  {
    assert s[i..] == [s[i]] + s[i + 1..];
    VisibleAppend([s[i]], s[i + 1..]);
    VisibleAppend([s[i]], ReplaceSpaces(s, i + 1));
  }

  /** Skipping a whitespace run does not change what is visible. */
  lemma {:induction false} VisibleSkipSpaces(s: string, i: nat, l: nat)
    requires i <= l <= |s|
    requires forall k :: i <= k < l ==> IsSpace(s[k])
    ensures Visible(s[i..]) == Visible(s[l..])
    decreases l - i
  {
    if i < l {
      assert s[i..][1..] == s[i + 1..];
      VisibleSkipSpaces(s, i + 1, l);
    }
  }

  lemma VisibleUnderscore(r: string)
    ensures Visible("_" + r) == Visible(r)
  {
    assert ("_" + r)[1..] == r;
  }

  /** The whole first replace: a leading `<digits> - ` prefix disappears
      into one underscore, and apart from that only whitespace changes. */
  lemma SanitiseKeepsVisible(name: string)
    ensures NoSpace(Sanitise(name))
    ensures DashPrefix(name).Some? ==>
      Sanitise(name) == "_" + ReplaceSpaces(name, DashPrefix(name).value) &&
      Visible(Sanitise(name)) == Visible(name[DashPrefix(name).value..])
    ensures DashPrefix(name).None? ==> Visible(Sanitise(name)) == Visible(name)
  {
    match DashPrefix(name)
    case Some(e) =>
      ReplaceNoSpace(name, e);
      NoSpaceCons('_', ReplaceSpaces(name, e));
      ReplaceKeepsVisible(name, e);
      VisibleAppend("_", ReplaceSpaces(name, e));
    case None =>
      ReplaceNoSpace(name, 0);
      ReplaceKeepsVisible(name, 0);
      assert name[0..] == name;
  }

  /** s[..e] matches `[0-9]+\s*-\s*`: digits up to d, whitespace up to m,
      the dash at m, whitespace up to e. */
  predicate DashShape(s: string, d: nat, m: nat, e: nat) {
    && 0 < d <= m < e <= |s|
    && AllDigits(s[..d])
    && (forall k :: d <= k < m ==> IsSpace(s[k]))
    && s[m] == '-'
    && (forall k :: m < k < e ==> IsSpace(s[k]))
  }

  /** Any start of s of the dash shape is found by DashPrefix. */
  lemma DashPrefixOfShape(s: string, d: nat, m: nat, e: nat)
    requires DashShape(s, d, m, e)
    ensures DashPrefix(s).Some?
  {
    assert s[d] == '-' || IsSpace(s[d]);
    DigitRunAt(s, d);
    assert forall k :: 0 <= k < m - d ==> s[d..][k] == s[d + k];
    LeadingSpacesAt(s[d..], m - d);
  }

  /** The whitespace run of length n that starts at index a of s, in
      indices of s. */
  lemma SpacesFrom(s: string, a: nat, n: nat)
    requires a <= |s| && n == LeadingSpaces(s[a..])
    ensures a + n <= |s|
    ensures forall k :: a <= k < a + n ==> IsSpace(s[k])
    ensures a + n == |s| || !IsSpace(s[a + n])
  {
    assert forall k :: a <= k < a + n ==> s[k] == s[a..][k - a];
    assert a + n < |s| ==> s[a + n] == s[a..][n];
  }

  /** The digits, whitespace, dash and whitespace DashPrefix steps over
      have the dash shape, and the match stops at a non-space. */
  lemma DashPrefixFound(s: string, d: nat, w: nat, e: nat)
    requires 0 < d <= |s| && AllDigits(s[..d])
    requires w == d + LeadingSpaces(s[d..]) && w < |s| && s[w] == '-'
    requires e == w + 1 + LeadingSpaces(s[w + 1..])
    ensures DashShape(s, d, w, e) && (e == |s| || !IsSpace(s[e]))
  {
    SpacesFrom(s, d, w - d);
    SpacesFrom(s, w + 1, e - w - 1);
  }

  /** DashPrefix finds the anchored match of `^[0-9]+\s*-\s*` exactly: it
      finds one whenever s starts with the shape, and the length it returns
      covers digits, whitespace, a dash and the whole whitespace run after
      it. */
  lemma DashPrefixSpec(s: string)
    ensures DashPrefix(s).Some? <==> exists d, m, e :: DashShape(s, d, m, e)
    ensures DashPrefix(s).Some? ==>
      var e := DashPrefix(s).value;
      && (exists d, m :: DashShape(s, d, m, e))
      && (e == |s| || !IsSpace(s[e]))
  {
    if exists d, m, e :: DashShape(s, d, m, e) {
      var d, m, e :| DashShape(s, d, m, e);
      DashPrefixOfShape(s, d, m, e);
    }
    if DashPrefix(s).Some? {
      var d := DigitRun(s);
      var w := d + LeadingSpaces(s[d..]);
      DashPrefixFound(s, d, w, DashPrefix(s).value);
    }
  }

  /** The whitespace run of s from index i ends at index l. */
  lemma {:induction false} SpacesRunAt(s: string, i: nat, l: nat)
    requires i <= l <= |s|
    requires forall k :: i <= k < l ==> IsSpace(s[k])
    requires l == |s| || !IsSpace(s[l])
    ensures LeadingSpaces(s[i..]) == l - i
    decreases l - i
  {
    if i < l {
      assert s[i..][1..] == s[i + 1..];
      SpacesRunAt(s, i + 1, l);
    } else if l < |s| {
      assert s[i..][0] == s[l];
    }
  }

  /** Whitespace replacement, one run at a time: the text s[i..j], which
      holds no whitespace, is kept, and the whole whitespace run s[j..l]
      becomes one underscore. */
  lemma {:induction false} ReplaceRun(s: string, i: nat, j: nat, l: nat)
    requires i <= j < l <= |s|
    requires forall k :: i <= k < j ==> !IsSpace(s[k])
    requires forall k :: j <= k < l ==> IsSpace(s[k])
    requires l == |s| || !IsSpace(s[l])
    ensures ReplaceSpaces(s, i) == s[i..j] + "_" + ReplaceSpaces(s, l)
    decreases j - i
  {
    if i == j {
      ReplaceAtRun(s, j, l);
      assert s[i..j] + "_" == "_";
    } else {
      ReplaceRun(s, i + 1, j, l);
      ReplaceKept(s, i, j, ReplaceSpaces(s, l));
    }
  }

  lemma ReplaceAtRun(s: string, j: nat, l: nat)
    requires j < l <= |s|
    requires forall k :: j <= k < l ==> IsSpace(s[k])
    requires l == |s| || !IsSpace(s[l])
    ensures ReplaceSpaces(s, j) == "_" + ReplaceSpaces(s, l)
  {
    SpacesRunAt(s, j, l);
  }

  lemma ReplaceKept(s: string, i: nat, j: nat, rest: string)
    requires i < j <= |s| && !IsSpace(s[i])
    requires ReplaceSpaces(s, i + 1) == s[i + 1..j] + "_" + rest
    ensures ReplaceSpaces(s, i) == s[i..j] + "_" + rest
  {
    assert [s[i]] + (s[i + 1..j] + "_" + rest) == s[i..j] + "_" + rest;
  }

  /** The second replace deletes exactly the unsafe characters: a
      character is in the result iff it is in s and safe. */
  lemma {:induction false} KeepSafeMembers(s: string)
    ensures forall c :: c in KeepSafe(s) <==> c in s && IsSafe(c)
  {
    if s != [] {
      KeepSafeMembers(s[1..]);
      assert s == [s[0]] + s[1..];
    }
  }

  /** One character at a time: a safe character stays, an unsafe one is
      deleted (with KeepSafeAppend this fixes KeepSafe on every string). */
  lemma KeepSafeChar(c: char)
    ensures KeepSafe([c]) == if IsSafe(c) then [c] else []
  {
    assert [c][1..] == [];
  }

  /** Text without whitespace passes the whitespace replacement unchanged
      (so `12abc`, which has no dash prefix either, stays `12abc`). */
  lemma {:induction false} ReplacePlain(s: string, i: nat)
    requires i <= |s|
    requires forall k :: i <= k < |s| ==> !IsSpace(s[k])
    ensures ReplaceSpaces(s, i) == s[i..]
    decreases |s| - i
  {
    if i < |s| {
      ReplacePlain(s, i + 1);
    }
  }

  /** The filename begins with exactly the row number: its leading digit run
      ends at the underscore that follows. */
  lemma FilenameStartsWithRowNumber(name: string, i: nat)
    ensures var f, r := Filename(name, i), RowNumber(name, i);
      f[..|r|] == r && DigitRun(f) == |r| && |r| >= 1
  {
    var r := RowNumber(name, i);
    assert r != [] && AllDigits(r) by {
      RowNumberSpec(name, i);
    }
    var rest := "_" + NamePart(name) + ".pdf";
    assert Filename(name, i) == r + rest;
    DigitRunPrefix(r, rest);
  }

  /** A filename always starts with a digit, so no record file is ever
      called `merged.pdf`. */
  lemma FilenameIsNotMerged(name: string, i: nat)
    ensures Filename(name, i) != "merged.pdf"
  {
    FilenameStartsWithRowNumber(name, i);
    assert IsDigit(Filename(name, i)[0]);
  }

  /** Rows whose names do not start with a digit get distinct filenames. */
  lemma FilenamesDistinct(name1: string, i: nat, name2: string, j: nat)
    requires DigitRun(name1) == 0 && DigitRun(name2) == 0
    requires i != j
    ensures Filename(name1, i) != Filename(name2, j)
  {
    FilenameStartsWithRowNumber(name1, i);
    FilenameStartsWithRowNumber(name2, j);
    RowNumberSpec(name1, i);
    RowNumberSpec(name2, j);
  }

  /** The numeric prefix is replaced, not removed: `03 - Jane Doe` keeps
      `03` as its row number and its name part starts with the underscore
      that replaced ` - `, giving a double underscore. */
  lemma NumberedNameExample(s: string)
    requires s == "03 - Jane Doe"
    ensures RowNumber(s, 2) == "03"
    ensures NamePart(s) == "_Jane_Doe"
    ensures Filename(s, 2) == "03__Jane_Doe.pdf"
  {
    JaneDoeDigits(s);
    JaneDoeNamePart(s);
    FilenameOfParts(s, 2, "03", "_Jane_Doe");
    Spellings();
  }

  /** The filename glues the row number and the name part with one
      underscore and appends the extension. */
  lemma FilenameOfParts(name: string, i: nat, row: string, part: string)
    requires RowNumber(name, i) == row && NamePart(name) == part
    ensures Filename(name, i) == row + "_" + part + ".pdf"
  {
  }

  /** The literal concatenations the examples rely on. */
  lemma Spellings()
    ensures "03" + "_" + "_Jane_Doe" + ".pdf" == "03__Jane_Doe.pdf"
    ensures "12" + "_" + "12abc" + ".pdf" == "12_12abc.pdf"
    ensures "01" + "_" + "Jan_Smit" + ".pdf" == "01_Jan_Smit.pdf"
    ensures "_" + "Jane_Doe" == "_Jane_Doe"
    ensures "Jan_Smit" + "!" == "Jan_Smit!"
    ensures ['J'] + (['a'] + (['n'] + "_Smit!")) == "Jan_Smit!"
  {
  }

  lemma JaneDoeNamePart(s: string)
    requires s == "03 - Jane Doe"
    ensures NamePart(s) == "_Jane_Doe"
  {
    JaneDoePrefix(s);
    JaneDoeTail(s);
    Spellings();
    SafeLiteral("_Jane_Doe");
  }

  /** Literal names made of letters and underscores pass the second
      replace unchanged. */
  lemma SafeLiteral(t: string)
    requires t == "_Jane_Doe" || t == "Jan_Smit" || t == "12abc"
    ensures KeepSafe(t) == t
  {
    assert AllSafe(t);
    KeepSafeOfSafe(t);
  }

  lemma JaneDoeDigits(s: string)
    requires s == "03 - Jane Doe"
    ensures DigitRun(s) == 2 && s[..2] == "03"
  {
    DigitRunPrefix("03", " - Jane Doe");
    assert s == "03" + " - Jane Doe";
  }

  lemma JaneDoePrefix(s: string)
    requires s == "03 - Jane Doe"
    ensures DashPrefix(s) == Some(5)
  {
    JaneDoeDigits(s);
    assert LeadingSpaces(s[2..]) == 1;
    assert LeadingSpaces(s[4..]) == 1;
  }

  lemma JaneDoeTail(s: string)
    requires s == "03 - Jane Doe"
    ensures ReplaceSpaces(s, 5) == "Jane_Doe"
  {
    assert ReplaceSpaces(s, 9) == "_Doe" by {
      ReplacePlain(s, 10);
      assert LeadingSpaces(s[9..]) == 1;
    }
    assert ReplaceSpaces(s, 7) == "ne_Doe";
  }

  /** Without a dash there is no prefix to replace: `12abc` keeps both its
      digits and its row number. */
  lemma UndashedNameExample(s: string)
    requires s == "12abc"
    ensures Filename(s, 4) == "12_12abc.pdf"
  {
    UndashedRowNumber(s);
    UndashedNamePart(s);
    FilenameOfParts(s, 4, "12", "12abc");
    Spellings();
  }

  lemma UndashedRowNumber(s: string)
    requires s == "12abc"
    ensures DigitRun(s) == 2 && RowNumber(s, 4) == "12"
  {
    DigitRunPrefix("12", "abc");
    assert s == "12" + "abc";
  }

  lemma UndashedNamePart(s: string)
    requires s == "12abc"
    ensures NamePart(s) == "12abc"
  {
    assert DashPrefix(s).None? by {
      UndashedRowNumber(s);
      assert LeadingSpaces(s[2..]) == 0;
    }
    ReplacePlain(s, 0);
    SafeLiteral(s);
  }

  /** A name without digits is numbered by its row, padded to two digits;
      whitespace becomes underscores and other unsafe characters vanish. */
  lemma UnnumberedNameExample(s: string)
    requires s == "Jan Smit!"
    ensures Filename(s, 0) == "01_Jan_Smit.pdf"
  {
    UnnumberedRowNumber(s);
    UnnumberedNamePart(s);
    FilenameOfParts(s, 0, "01", "Jan_Smit");
    Spellings();
  }

  lemma UnnumberedRowNumber(s: string)
    requires s == "Jan Smit!"
    ensures RowNumber(s, 0) == "01"
  {
    assert DigitRun(s) == 0;
    assert NatToDecimal(1) == "1";
  }

  lemma UnnumberedNamePart(s: string)
    requires s == "Jan Smit!"
    ensures NamePart(s) == "Jan_Smit"
  {
    JanSmitSanitised(s);
    Spellings();
    KeepSafeAppend("Jan_Smit", "!");
    SafeLiteral("Jan_Smit");
  }

  lemma JanSmitSanitised(s: string)
    requires s == "Jan Smit!"
    ensures Sanitise(s) == "Jan_Smit!"
  {
    JanSmitNoPrefix(s);
    JanSmitTail(s);
    assert !IsSpace(s[0]) && !IsSpace(s[1]) && !IsSpace(s[2]);
    assert ReplaceSpaces(s, 2) == [s[2]] + ReplaceSpaces(s, 3);
    assert ReplaceSpaces(s, 1) == [s[1]] + ReplaceSpaces(s, 2);
    assert ReplaceSpaces(s, 0) == [s[0]] + ReplaceSpaces(s, 1);
    assert s[..3] == "Jan";
    Spellings();
  }

  lemma JanSmitNoPrefix(s: string)
    requires s == "Jan Smit!"
    ensures DashPrefix(s).None?
  {
    assert DigitRun(s) == 0;
  }

  lemma JanSmitTail(s: string)
    requires s == "Jan Smit!"
    ensures ReplaceSpaces(s, 3) == "_Smit!"
  {
    ReplacePlain(s, 4);
    assert LeadingSpaces(s[3..]) == 1;
  }

  lemma {:induction false} KeepSafeAppend(a: string, b: string)
    ensures KeepSafe(a + b) == KeepSafe(a) + KeepSafe(b)
  {
    if a != [] {
      assert (a + b)[1..] == a[1..] + b;
      KeepSafeAppend(a[1..], b);
    } else {
      assert a + b == b;
    }
  }
}
