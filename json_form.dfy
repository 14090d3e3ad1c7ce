/**
 * `HttpInterface::parse_json_form`: the body of a POST that sets a variable or
 * sends an event is a JSON array of integers (RFC 8259), white space allowed
 * around the array and its elements. Parsing is all-or-nothing: the element
 * texts are appended to the caller's list only when the whole body is such an
 * array. The reader walks the body by position, as a scanner over the
 * character buffer does.
 */
module JsonForm {
  import opened Wrappers
  import opened CLib

  /** The four white-space characters of JSON. */
  predicate IsJsonSpace(c: char) {
    c == ' ' || c == '\t' || c == '\n' || c == '\r'
  }

  /** An integer literal: an optional minus sign and at least one digit. */
  predicate IsNumeral(s: string) {
    (|s| >= 1 && AllDigits(s)) || (|s| >= 2 && s[0] == '-' && AllDigits(s[1..]))
  }

  /** Every element of `els` is an integer literal. */
  predicate AllNumerals(els: seq<string>) {
    els == [] || (IsNumeral(els[0]) && AllNumerals(els[1..]))
  }

  /** The first position at or after `i` that does not hold white space. */
  function SkipWs(s: string, i: nat): (r: nat)
    requires i <= |s|
    ensures i <= r <= |s|
    ensures r < |s| ==> !IsJsonSpace(s[r])
    decreases |s| - i
  {
    if i < |s| && IsJsonSpace(s[i]) then SkipWs(s, i + 1) else i
  }

  /** Everything `SkipWs` steps over is white space. */
  lemma {:induction false} SkippedSpaces(s: string, i: nat)
    requires i <= |s|
    ensures forall k :: i <= k < SkipWs(s, i) ==> IsJsonSpace(s[k])
    decreases |s| - i
  {
    if i < |s| && IsJsonSpace(s[i]) {
      SkippedSpaces(s, i + 1);
    }
  }

  /** The end of the run of digits that starts at `i`. */
  function DigitsEnd(s: string, i: nat): (r: nat)
    requires i <= |s|
    ensures i <= r <= |s|
    ensures r < |s| ==> !IsDigit(s[r])
    decreases |s| - i
  {
    if i < |s| && IsDigit(s[i]) then DigitsEnd(s, i + 1) else i
  }

  /** Everything `DigitsEnd` steps over is a digit. */
  lemma {:induction false} DigitsRun(s: string, i: nat)
    requires i <= |s|
    ensures forall k :: i <= k < DigitsEnd(s, i) ==> IsDigit(s[k])
    decreases |s| - i
  {
    if i < |s| && IsDigit(s[i]) {
      DigitsRun(s, i + 1);
    }
  }

  /** The end of the integer literal that starts at `i`, if one does. */
  function NumeralAt(s: string, i: nat): (r: Option<nat>)
    requires i <= |s|
    ensures r.Some? ==> i < r.value <= |s|
    ensures r.Some? ==> r.value == |s| || !IsDigit(s[r.value])
    ensures r.None? <==> (i == |s| || (s[i] != '-' && !IsDigit(s[i])) || (s[i] == '-' && (i + 1 == |s| || !IsDigit(s[i + 1]))))
  {
    if i < |s| && s[i] == '-' then
      var e := DigitsEnd(s, i + 1);
      if e == i + 1 then None else Some(e)
    else
      var e := DigitsEnd(s, i);
      if e == i then None else Some(e)
  }

  /** The text `NumeralAt` delimits is an integer literal. */
  lemma NumeralIsNumeral(s: string, i: nat)
    requires i <= |s|
    ensures NumeralAt(s, i).Some? ==> IsNumeral(s[i..NumeralAt(s, i).value])
  {
    if NumeralAt(s, i).Some? {
      var e := NumeralAt(s, i).value;
      if s[i] == '-' {
        DigitsRun(s, i + 1);
        assert forall k :: 0 <= k < e - i - 1 ==> s[i..e][1..][k] == s[i + 1 + k];
      } else {
        DigitsRun(s, i);
        assert forall k :: 0 <= k < e - i ==> s[i..e][k] == s[i + k];
      }
    }
  }

  /**
   * The elements of an array from the element at `i` on: `42, 63 ]`, then only
   * white space up to the end of the body.
   */
  function ElementsAt(s: string, i: nat): (r: Option<seq<string>>)
    requires i <= |s|
    decreases |s| - i
  {
    match NumeralAt(s, i)
    case None => None
    case Some(e) =>
      var j := SkipWs(s, e);
      if j < |s| && s[j] == ']' then
        (if SkipWs(s, j + 1) == |s| then Some([s[i..e]]) else None)
      else if j < |s| && s[j] == ',' then
        match ElementsAt(s, SkipWs(s, j + 1))
        case None => None
        case Some(more) => Some([s[i..e]] + more)
      else None
  }

  /** Every element text read is an integer literal. */
  lemma {:induction false} ElementsAreNumerals(s: string, i: nat)
    requires i <= |s|
    ensures ElementsAt(s, i).Some? ==> |ElementsAt(s, i).value| >= 1 && AllNumerals(ElementsAt(s, i).value)
    decreases |s| - i
  {
    NumeralIsNumeral(s, i);
    match NumeralAt(s, i)
    case None =>
    case Some(e) =>
      var j := SkipWs(s, e);
      if j < |s| && s[j] == ']' {
        NumeralsCons(s[i..e], []);
      } else if j < |s| && s[j] == ',' {
        var k := SkipWs(s, j + 1);
        ElementsAreNumerals(s, k);
        if ElementsAt(s, k).Some? {
          NumeralsCons(s[i..e], ElementsAt(s, k).value);
        }
      }
  }

  lemma NumeralsCons(numeral: string, more: seq<string>)
    requires IsNumeral(numeral) && AllNumerals(more)
    ensures AllNumerals([numeral] + more)
  {
    assert ([numeral] + more)[1..] == more;
  }

  /** The element texts of a JSON integer array, or `None` when `content` is anything else. */
  function ParseJsonForm(content: string): (r: Option<seq<string>>)
    ensures r.Some? ==> AllNumerals(r.value)
    ensures SkipWs(content, 0) == |content| ==> r.None?
    ensures r.Some? ==> content[SkipWs(content, 0)] == '['
  {
    var i := SkipWs(content, 0);
    if i == |content| || content[i] != '[' then None
    else
      var j := SkipWs(content, i + 1);
      if j < |content| && content[j] == ']' then
        (if SkipWs(content, j + 1) == |content| then Some([]) else None)
      else
        ElementsAreNumerals(content, j);
        ElementsAt(content, j)
  }

  /**
   * `parse_json_form(content, values)`: append the element texts to `values`,
   * one `push_back` per element; a body that is not an integer array appends
   * nothing.
   */
  method ParseJsonFormInto(content: string, values: seq<string>) returns (out: seq<string>)
    ensures ParseJsonForm(content).Some? ==> out == values + ParseJsonForm(content).value
    ensures ParseJsonForm(content).None? ==> out == values
  {
    out := values;
    var parsed := ParseJsonForm(content);
    if parsed.Some? {
      var elements := parsed.value;
      var i := 0;
      while i < |elements|
        invariant 0 <= i <= |elements|
        invariant out == values + elements[..i]
      {
        out := out + [elements[i]];
        i := i + 1;
        assert elements[..i] == elements[..i - 1] + [elements[i - 1]];
      }
      assert elements[..i] == elements;
    }
  }

  // ---------------------------------------------------------------------------
  // Writing an array, and reading it back

  /** `v1,v2,...,vn` in decimal. */
  function Joined(vs: seq<int>): (r: string)
    requires vs != []
    ensures |r| >= 1 && (IsDigit(r[0]) || r[0] == '-')
  {
    if |vs| == 1 then IntToDecimal(vs[0]) else IntToDecimal(vs[0]) + "," + Joined(vs[1..])
  }

  /** The JSON text of an integer array, without white space. */
  function Render(vs: seq<int>): string {
    if vs == [] then "[]" else "[" + Joined(vs) + "]"
  }

  function Numerals(vs: seq<int>): (r: seq<string>)
    ensures |r| == |vs|
  {
    if vs == [] then [] else [IntToDecimal(vs[0])] + Numerals(vs[1..])
  }

  lemma {:induction false} DigitsEndOver(s: string, i: nat, j: nat)
    requires i <= j <= |s|
    requires forall k :: i <= k < j ==> IsDigit(s[k])
    requires j == |s| || !IsDigit(s[j])
    ensures DigitsEnd(s, i) == j
    decreases j - i
  {
    if i < j {
      DigitsEndOver(s, i + 1, j);
    }
  }

  /** A decimal numeral at position `at`, followed by a non-digit, is read whole. */
  lemma NumeralOfDecimalAt(s: string, at: nat, e: nat, v: int)
    requires e == at + |IntToDecimal(v)| && e <= |s|
    requires s[at..e] == IntToDecimal(v)
    requires e == |s| || !IsDigit(s[e])
    ensures NumeralAt(s, at) == Some(e)
  {
    var d := IntToDecimal(v);
    assert forall k :: 0 <= k < |d| ==> s[at + k] == d[k] by {
      forall k | 0 <= k < |d|
        ensures s[at + k] == d[k]
      {
        assert s[at..e][k] == s[at + k];
      }
    }
    if v < 0 {
      assert s[at] == '-';
      assert forall k :: at + 1 <= k < e ==> IsDigit(s[k]) by {
        forall k | at + 1 <= k < e
          ensures IsDigit(s[k])
        {
          assert s[k] == d[k - at] == d[1..][k - at - 1];
        }
      }
      DigitsEndOver(s, at + 1, e);
    } else {
      assert IsDigit(s[at]) by {
        assert s[at] == d[0];
      }
      assert forall k :: at <= k < e ==> IsDigit(s[k]) by {
        forall k | at <= k < e
          ensures IsDigit(s[k])
        {
          assert s[k] == d[k - at];
        }
      }
      DigitsEndOver(s, at, e);
    }
  }

  /** The elements read from position `at` on, or `None` when there is no array tail there. */
  function ReadFrom(s: string, at: nat): Option<seq<string>> {
    if at <= |s| then ElementsAt(s, at) else None
  }

  /** The text from `at` to its end is `Joined(vs)` and the closing bracket. */
  predicate JoinedAt(s: string, at: nat, vs: seq<int>) {
    vs != [] && at <= |s| && s[at..] == Joined(vs) + "]"
  }

  /** The numeral of `v` at `at`, ending at `c`, then a comma and the next element's first character. */
  predicate ConsAt(s: string, at: nat, c: nat, v: int) {
    && at < c && c + 1 < |s|
    && NumeralAt(s, at) == Some(c) && s[at..c] == IntToDecimal(v)
    && s[c] == ',' && !IsJsonSpace(s[c + 1])
  }

  /** A numeral ending at `c`, a closing bracket, and the end of the text: a last element. */
  lemma LastStep(s: string, at: nat, c: nat)
    requires at <= |s| && NumeralAt(s, at) == Some(c)
    requires c + 1 == |s| && s[c] == ']'
    ensures ReadFrom(s, at) == Some([s[at..c]])
  {
    assert SkipWs(s, c) == c;
    assert SkipWs(s, c + 1) == c + 1;
  }

  /** A numeral ending at `c`, a comma, then an element right after it: one more element in front. */
  lemma ConsStep(s: string, at: nat, c: nat)
    requires at <= |s| && NumeralAt(s, at) == Some(c)
    requires c + 1 < |s| && s[c] == ',' && !IsJsonSpace(s[c + 1])
    requires ReadFrom(s, c + 1).Some?
    ensures ReadFrom(s, at) == Some([s[at..c]] + ReadFrom(s, c + 1).value)
  {
    assert SkipWs(s, c) == c;
    assert SkipWs(s, c + 1) == c + 1;
  }

  /** A single value and the closing bracket: the value's numeral, then `]` as the last character. */
  lemma LastPartsAt(s: string, at: nat, vs: seq<int>) returns (c: nat)
    requires |vs| == 1 && JoinedAt(s, at, vs)
    ensures c == at + |IntToDecimal(vs[0])| && c + 1 == |s|
    ensures s[at..c] == IntToDecimal(vs[0]) && s[c] == ']'
  {
    var d := IntToDecimal(vs[0]);
    var t := s[at..];
    assert t == d + "]";
    c := at + |d|;
    assert s[at..c] == d by {
      assert s[at..c] == t[..|d|];
    }
    assert s[c] == t[|d|];
  }

  /** A single value and the closing bracket read back as that value's numeral. */
  lemma JoinedLastAt(s: string, at: nat, vs: seq<int>)
    requires |vs| == 1 && JoinedAt(s, at, vs)
    ensures ReadFrom(s, at) == Some(Numerals(vs))
  {
    var c := LastPartsAt(s, at, vs);
    NumeralOfDecimalAt(s, at, c, vs[0]);
    LastStep(s, at, c);
    assert Numerals(vs) == [IntToDecimal(vs[0])] + Numerals(vs[1..]);
    assert Numerals(vs) == [s[at..c]];
  }

  /** `Joined` of two or more values: the first numeral, a comma, then the rest. */
  lemma JoinedParts(vs: seq<int>)
    requires |vs| >= 2
    ensures Joined(vs) + "]" == IntToDecimal(vs[0]) + ("," + (Joined(vs[1..]) + "]"))
  {
    var d := IntToDecimal(vs[0]);
    var j := Joined(vs[1..]);
    assert Joined(vs) == d + "," + j;
    Regroup(d, ",", j, "]");
  }

  /** Regrouping four concatenated strings, kept apart from the lemma above to keep its proof small. */
  lemma Regroup(a: string, b: string, c: string, e: string)
    ensures a + b + c + e == a + (b + (c + e))
  {
  }

  /** Two or more values: the first value's numeral and its comma, then the rest of `Joined(vs)`. */
  lemma JoinedTailAt(s: string, at: nat, vs: seq<int>) returns (c: nat)
    requires |vs| >= 2 && JoinedAt(s, at, vs)
    ensures ConsAt(s, at, c, vs[0]) && JoinedAt(s, c + 1, vs[1..])
  {
    var d := IntToDecimal(vs[0]);
    var rest := Joined(vs[1..]) + "]";
    var t := s[at..];
    c := at + |d|;
    assert t == d + ("," + rest) by {
      JoinedParts(vs);
    }
    assert s[at..c] == d by {
      assert s[at..c] == t[..|d|];
    }
    assert s[c] == ',' by {
      assert s[c] == t[|d|];
    }
    assert s[c + 1..] == rest by {
      assert s[c + 1..] == t[|d| + 1..];
    }
    assert !IsJsonSpace(s[c + 1]) by {
      assert s[c + 1] == rest[0] == Joined(vs[1..])[0];
    }
    NumeralOfDecimalAt(s, at, c, vs[0]);
  }

  /** The first value's numeral and a comma, then the rest of the values read from right after it. */
  lemma NextElementAt(s: string, at: nat, c: nat, vs: seq<int>)
    requires |vs| >= 2 && ConsAt(s, at, c, vs[0])
    requires ReadFrom(s, c + 1) == Some(Numerals(vs[1..]))
    ensures ReadFrom(s, at) == Some(Numerals(vs))
  {
    ConsStep(s, at, c);
    assert Numerals(vs) == [IntToDecimal(vs[0])] + Numerals(vs[1..]);
  }

  /** `Joined(vs)` and a closing bracket, up to the end of the text, read back as the decimal texts of `vs`. */
  lemma {:induction false} ElementsOfJoinedAt(s: string, at: nat, vs: seq<int>)
    requires JoinedAt(s, at, vs)
    ensures ReadFrom(s, at) == Some(Numerals(vs))
    decreases |vs|
  {
    if |vs| == 1 {
      JoinedLastAt(s, at, vs);
    } else {
      var c := JoinedTailAt(s, at, vs);
      ElementsOfJoinedAt(s, c + 1, vs[1..]);
      NextElementAt(s, at, c, vs);
    }
  }

  /** Every array `Render` writes parses back to the decimal texts of its values, in order. */
  lemma ParseRender(vs: seq<int>)
    ensures ParseJsonForm(Render(vs)) == Some(Numerals(vs))
  {
    var s := Render(vs);
    if vs == [] {
      assert s == "[]";
    } else {
      var j := Joined(vs);
      assert s == "[" + j + "]";
      assert SkipWs(s, 0) == 0;
      assert s[1] == j[0];
      assert SkipWs(s, 1) == 1;
      assert s[1..] == j + "]";
      ElementsOfJoinedAt(s, 1, vs);
    }
  }

  /** The texts read from a rendered array convert back to the values that were written. */
  lemma RenderedValues(vs: seq<int>, i: nat)
    requires i < |vs|
    ensures Atoi(Numerals(vs)[i]) == vs[i]
  {
    if i == 0 {
      AtoiOfDecimal(vs[0]);
    } else {
      RenderedValues(vs[1..], i - 1);
    }
  }

  // ---------------------------------------------------------------------------
  // The bodies of the test suite, each read character by character

  lemma EmptyBody(body: string)
    requires body == ""
    ensures ParseJsonForm(body) == None
  {
  }

  lemma OneElement(body: string)
    requires body == "[42]"
    ensures ParseJsonForm(body) == Some(["42"])
  {
    assert DigitsEnd(body, 3) == 3;
    assert DigitsEnd(body, 2) == 3;
    assert NumeralAt(body, 1) == Some(3);
    assert body[1..3] == "42";
    assert ElementsAt(body, 1) == Some(["42"]);
  }

  lemma NoElement(body: string)
    requires body == "[]"
    ensures ParseJsonForm(body) == Some([])
  {
  }

  lemma WhiteSpaceAround(body: string)
    requires body == " [\t42,\r\n\t 63\n\r]\t\n"
    ensures ParseJsonForm(body) == Some(["42", "63"])
  {
    assert SkipWs(body, 0) == 1;
    assert SkipWs(body, 2) == 3;
    assert DigitsEnd(body, 5) == 5;
    assert DigitsEnd(body, 3) == 5;
    assert NumeralAt(body, 3) == Some(5);
    assert body[3..5] == "42";
    assert SkipWs(body, 5) == 5;
    assert body[5] == ',';
    SpacedSecond(body);
    assert [body[3..5]] + ["63"] == ["42", "63"];
    assert ElementsAt(body, 3) == Some(["42", "63"]);
  }

  lemma SpacedSecond(body: string)
    requires body == " [\t42,\r\n\t 63\n\r]\t\n"
    ensures SkipWs(body, 6) == 10
    ensures ElementsAt(body, 10) == Some(["63"])
  {
    assert SkipWs(body, 9) == 10;
    assert SkipWs(body, 8) == 10;
    assert SkipWs(body, 7) == 10;
    assert DigitsEnd(body, 12) == 12;
    assert DigitsEnd(body, 10) == 12;
    assert NumeralAt(body, 10) == Some(12);
    assert body[10..12] == "63";
    assert SkipWs(body, 14) == 14;
    assert SkipWs(body, 12) == 14;
    assert SkipWs(body, 17) == 17;
    assert SkipWs(body, 15) == 17;
  }

  lemma BadSeparator(body: string)
    requires body == "[42;63]"
    ensures ParseJsonForm(body) == None
  {
    assert DigitsEnd(body, 3) == 3;
    assert DigitsEnd(body, 2) == 3;
    assert NumeralAt(body, 1) == Some(3);
  }

  lemma NoOpening(body: string)
    requires body == "42,63]"
    ensures ParseJsonForm(body) == None
  {
  }

  lemma NoClosing(body: string)
    requires body == "[42,63"
    ensures ParseJsonForm(body) == None
  {
    assert DigitsEnd(body, 6) == 6;
    assert NumeralAt(body, 4) == Some(6);
    assert ElementsAt(body, 4) == None;
    assert DigitsEnd(body, 3) == 3;
    assert DigitsEnd(body, 2) == 3;
    assert NumeralAt(body, 1) == Some(3);
  }

  lemma StringElement(body: string)
    requires body == "[42,63,27,\"hike\"]"
    ensures ParseJsonForm(body) == None
  {
    StringAfterFirst(body);
    assert DigitsEnd(body, 3) == 3;
    assert DigitsEnd(body, 2) == 3;
    assert NumeralAt(body, 1) == Some(3);
  }

  lemma StringAfterFirst(body: string)
    requires body == "[42,63,27,\"hike\"]"
    ensures ElementsAt(body, 4) == None
  {
    StringAfterSecond(body);
    assert DigitsEnd(body, 6) == 6;
    assert DigitsEnd(body, 5) == 6;
    assert NumeralAt(body, 4) == Some(6);
  }

  lemma StringAfterSecond(body: string)
    requires body == "[42,63,27,\"hike\"]"
    ensures ElementsAt(body, 7) == None
  {
    assert NumeralAt(body, 10) == None;
    assert DigitsEnd(body, 9) == 9;
    assert DigitsEnd(body, 8) == 9;
    assert NumeralAt(body, 7) == Some(9);
  }

  lemma ObjectBody(body: string)
    requires body == "{ \"abc\": 12, \"def\": [1,2,3] }"
    ensures ParseJsonForm(body) == None
  {
  }

  lemma ObjectElement(body: string)
    requires body == "[42, { \"abc\": 12, \"def\": [1,2,3] }, 63]"
    ensures ParseJsonForm(body) == None
  {
    ObjectAfterFirst(body);
    assert SkipWs(body, 3) == 3;
    assert DigitsEnd(body, 3) == 3;
    assert DigitsEnd(body, 2) == 3;
    assert NumeralAt(body, 1) == Some(3);
  }

  lemma ObjectAfterFirst(body: string)
    requires body == "[42, { \"abc\": 12, \"def\": [1,2,3] }, 63]"
    ensures SkipWs(body, 4) == 5 && ElementsAt(body, 5) == None
  {
    assert SkipWs(body, 5) == 5;
    assert NumeralAt(body, 5) == None;
  }
}
