/**
 * The `pages` field of a record: `pages.split(",").map(s => parseInt(s.trim(), 10))
 * .filter(n => !isNaN(n))`. Tokens that do not read as a number are dropped
 * silently; the others keep their order.
 */
module PageTokens {
  import opened Options
  import opened JsText

  /** The number a token reads as, or None for NaN. */
  function TokenValue(token: string): Option<int> {
    ParseInt(Trim(token))
  }

  /** The values of the tokens that read as numbers, in order. */
  function ParseTokens(tokens: seq<string>): seq<int> {
    if tokens == [] then []
    else match TokenValue(tokens[0])
      case None => ParseTokens(tokens[1..])
      case Some(v) => [v] + ParseTokens(tokens[1..])
  }

  /** The page numbers a record's `pages` field asks for. */
  function ParsePageList(field: string): seq<int> {
    ParseTokens(Split(field, ','))
  }

  /** The indices, from i on, of the tokens that survive the NaN filter:
      in increasing order, and every token that reads as a number among
      them (that each of them does is part of ParseTokensFrom). */
  function SurvivorsFrom(tokens: seq<string>, i: nat): (idx: seq<nat>)
    requires i <= |tokens|
    ensures forall k :: 0 <= k < |idx| ==> i <= idx[k] < |tokens|
    ensures forall k, l :: 0 <= k < l < |idx| ==> idx[k] < idx[l]
    ensures forall t :: i <= t < |tokens| && TokenValue(tokens[t]).Some? ==> t in idx
    decreases |tokens| - i
  {
    if i == |tokens| then []
    else
      var rest := SurvivorsFrom(tokens, i + 1);
      if TokenValue(tokens[i]).Some? then
        ConsIncreasing(i, rest, |tokens|);
        [i] + rest
      else rest
  }

  /** Prepending i to indices above i keeps them increasing and in range. */
  lemma ConsIncreasing(i: nat, rest: seq<nat>, n: nat)
    requires i < n
    requires forall k :: 0 <= k < |rest| ==> i + 1 <= rest[k] < n
    requires forall k, l :: 0 <= k < l < |rest| ==> rest[k] < rest[l]
    ensures forall k :: 0 <= k < |[i] + rest| ==> i <= ([i] + rest)[k] < n
    ensures forall k, l :: 0 <= k < l < |[i] + rest| ==> ([i] + rest)[k] < ([i] + rest)[l]
  {
    assert forall k :: 1 <= k < |[i] + rest| ==> ([i] + rest)[k] == rest[k - 1];
  }

  /** The result lists the values of the surviving tokens from i on, one
      for each and in the same order. */
  lemma {:induction false} ParseTokensFrom(tokens: seq<string>, i: nat)
    requires i <= |tokens|
    ensures var nums, idx := ParseTokens(tokens[i..]), SurvivorsFrom(tokens, i);
      && |nums| == |idx|
      && (forall k :: 0 <= k < |idx| ==> TokenValue(tokens[idx[k]]) == Some(nums[k]))
    decreases |tokens| - i
  {
    if i < |tokens| {
      ParseTokensFrom(tokens, i + 1);
      var rest, restIdx := ParseTokens(tokens[i + 1..]), SurvivorsFrom(tokens, i + 1);
      assert tokens[i..][1..] == tokens[i + 1..];
      assert tokens[i..][0] == tokens[i];
      match TokenValue(tokens[i])
      case None =>
        assert ParseTokens(tokens[i..]) == rest;
        assert SurvivorsFrom(tokens, i) == restIdx;
      case Some(v) =>
        assert ParseTokens(tokens[i..]) == [v] + rest;
        assert SurvivorsFrom(tokens, i) == [i] + restIdx;
    }
  }

  /** The whole token list: the NaN filter keeps exactly the tokens that
      read as numbers, in their order, and nothing else. */
  lemma ParseTokensSpec(tokens: seq<string>)
    ensures var nums, idx := ParseTokens(tokens), SurvivorsFrom(tokens, 0);
      && |nums| == |idx| <= |tokens|
      && (forall k :: 0 <= k < |idx| ==> idx[k] < |tokens|)
      && (forall k, l :: 0 <= k < l < |idx| ==> idx[k] < idx[l])
      && (forall k :: 0 <= k < |idx| ==> TokenValue(tokens[idx[k]]) == Some(nums[k]))
      && (forall t :: 0 <= t < |tokens| && TokenValue(tokens[t]).Some? ==> t in idx)
  {
    ParseTokensFrom(tokens, 0);
    assert tokens[0..] == tokens;
  }

  /** Parsing a list of tokens made of two parts parses each part in turn. */
  lemma {:induction false} ParseTokensAppend(a: seq<string>, b: seq<string>)
    ensures ParseTokens(a + b) == ParseTokens(a) + ParseTokens(b)
  {
    if a != [] {
      assert (a + b)[1..] == a[1..] + b;
      ParseTokensAppend(a[1..], b);
      match TokenValue(a[0])
      case None =>
      case Some(v) =>
    } else {
      assert a + b == b;
    }
  }

  /** Examples of single tokens: whitespace is trimmed, a sign is read,
      digits after the leading run are ignored, and a token without a
      digit after the sign is NaN. */
  lemma TokenExamples()
    ensures TokenValue("3a") == Some(3)
    ensures TokenValue("+5") == Some(5)
    ensures TokenValue("-2") == Some(-2)
    ensures TokenValue("") == None
    ensures TokenValue("x1") == None
    ensures TokenValue(" 2 ") == Some(2)
  {
    PaddedExample(" 2 ", " ", "2", " ", 2);
    TrailingTextExample("3a");
    SignedExample("+5", '+', "5", 5);
    SignedExample("-2", '-', "2", -2);
    NoDigitExample("x1");
    NoDigitExample("");
  }

  /** A token is trimmed before it is read: digits with whitespace on
      either side read as their decimal value. */
  lemma PaddedTokenValue(ws1: string, ds: string, ws2: string)
    requires forall k :: 0 <= k < |ws1| ==> IsSpace(ws1[k])
    requires forall k :: 0 <= k < |ws2| ==> IsSpace(ws2[k])
    requires ds != [] && AllDigits(ds)
    ensures TokenValue(ws1 + ds + ws2) == Some(DecimalValue(ds))
  {
    assert IsDigit(ds[0]) && IsDigit(ds[|ds| - 1]);
    TrimSpaces(ws1, ds, ws2);
    assert ds + [] == ds;
    ParseIntUnsigned(ds, []);
  }

  lemma PaddedExample(t: string, ws1: string, ds: string, ws2: string, v: int)
    requires (t, ws1, ds, ws2, v) in
      [(" 2 ", " ", "2", " ", 2), ("1", "", "1", "", 1), (" 2", " ", "2", "", 2), (" 3", " ", "3", "", 3)]
    ensures TokenValue(t) == Some(v)
  {
    assert t == ws1 + ds + ws2;
    assert DecimalValue(ds) == v by {
      assert ds[..0] == [];
    }
    PaddedTokenValue(ws1, ds, ws2);
  }

  /** The everyday field: `1, 2, 3` asks for pages 1, 2 and 3. */
  lemma FieldExample(field: string)
    requires field == "1, 2, 3"
    ensures ParsePageList(field) == [1, 2, 3]
  {
    var parts := ["1", " 2", " 3"];
    FieldSplit(field, parts);
    FieldTokens(parts);
  }

  lemma FieldSplit(field: string, parts: seq<string>)
    requires field == "1, 2, 3" && parts == ["1", " 2", " 3"]
    ensures Split(field, ',') == parts
  {
    assert Join(parts[1..], ',') == " 2, 3" by {
      assert parts[1..][1..] == [" 3"];
    }
    assert Join(parts, ',') == field;
    SplitJoin(parts, ',');
  }

  lemma FieldTokens(parts: seq<string>)
    requires parts == ["1", " 2", " 3"]
    ensures ParseTokens(parts) == [1, 2, 3]
  {
    PaddedExample("1", "", "1", "", 1);
    PaddedExample(" 2", " ", "2", "", 2);
    PaddedExample(" 3", " ", "3", "", 3);
    ThreeTokens(parts[0], parts[1], parts[2], 1, 2, 3);
    assert parts == [parts[0], parts[1], parts[2]];
  }

  lemma ThreeTokens(a: string, b: string, c: string, va: int, vb: int, vc: int)
    requires TokenValue(a) == Some(va) && TokenValue(b) == Some(vb) && TokenValue(c) == Some(vc)
    ensures ParseTokens([a, b, c]) == [va, vb, vc]
  {
    TokenStep(c, [], vc);
    TokenStep(b, [c], vb);
    TokenStep(a, [b, c], va);
    assert [c] + [] == [c] && [b] + [c] == [b, c] && [a] + [b, c] == [a, b, c];
  }

  lemma TokenStep(t: string, rest: seq<string>, v: int)
    requires TokenValue(t) == Some(v)
    ensures ParseTokens([t] + rest) == [v] + ParseTokens(rest)
  {
    assert ([t] + rest)[1..] == rest;
  }

  /** The token "3a" reads as 3: the digits stop at the letter. The general
      law for trimmed tokens is JsText.ParseIntUnsigned. */
  lemma TrailingTextExample(t: string)
    requires t == "3a"
    ensures TokenValue(t) == Some(3)
  {
    assert NoSpace(t) by {
      assert t[0] == '3' && t[1] == 'a';
    }
    assert t == "3" + "a";
    ParseIntUnsigned("3", "a");
  }

  /** The tokens "+5" and "-2" read as 5 and -2. The general law for trimmed
      tokens is JsText.ParseIntSigned. */
  lemma SignedExample(t: string, sign: char, d: string, v: int)
    requires (t, sign, d, v) == ("+5", '+', "5", 5) || (t, sign, d, v) == ("-2", '-', "2", -2)
    ensures TokenValue(t) == Some(v)
  {
    assert NoSpace(t) by {
      assert t[0] == sign && t[1] == d[0];
    }
    assert t[1..2] == d;
    assert DecimalValue(d) == if sign == '-' then -v else v by {
      assert d[..0] == [];
    }
    ParseIntSigned(t, 1);
  }

  /** The tokens "x1" and "" are NaN. The general law, for a token whose
      trimmed form has no digit after the optional sign, is
      JsText.ParseIntNaN. */
  lemma NoDigitExample(t: string)
    requires t == "x1" || t == ""
    ensures TokenValue(t) == None
  {
    if t != "" {
      assert NoSpace(t) by {
        assert t[0] == 'x' && t[1] == '1';
      }
    }
    ParseIntNaN(t);
  }
}
