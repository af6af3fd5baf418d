/** The string operations the tables use: `str.split('||')`, `str.strip()` and `str.replace(c, '')`. */
module Text {
  import opened Wrappers
  import opened Tables

  /** Separator of multi-valued catalog fields (genres, platforms). */
  const Delimiter: string := "||"

  /**
   * Python's `s.split('||')`: cut at each leftmost non-overlapping occurrence of the
   * separator. Always at least one token; an empty string gives `[""]`.
   */
  function Split(s: string): (r: seq<string>)
    ensures |r| >= 1
    decreases |s|
  {
    if |s| < 2 then [s]
    else if s[0] == '|' && s[1] == '|' then [""] + Split(s[2..])
    else
      var rest := Split(s[1..]);
      [[s[0]] + rest[0]] + rest[1..]
  }

  /** Python's `'||'.join(parts)`. */
  function Join(parts: seq<string>): string
  {
    if |parts| == 0 then ""
    else if |parts| == 1 then parts[0]
    else parts[0] + Delimiter + Join(parts[1..])
  }

  lemma ConcatAssoc<T>(a: seq<T>, b: seq<T>, c: seq<T>)
    ensures (a + b) + c == a + (b + c)
  {
  }

  /** Prefixing the first part prefixes the joined string. */
  lemma JoinPrefixFirst(x: string, parts: seq<string>)
    requires |parts| >= 1
    ensures Join([x + parts[0]] + parts[1..]) == x + Join(parts)
  {
    var q := [x + parts[0]] + parts[1..];
    assert |q| == |parts| && q[0] == x + parts[0] && q[1..] == parts[1..];
    if |parts| == 1 {
      assert Join(q) == q[0];
      assert Join(parts) == parts[0];
    } else {
      var tail := Join(parts[1..]);
      assert Join(q) == (x + parts[0]) + Delimiter + tail;
      assert Join(parts) == (parts[0] + Delimiter) + tail;
      ConcatAssoc(x, parts[0], Delimiter);
      ConcatAssoc(x, parts[0] + Delimiter, tail);
    }
  }

  /** Re-joining the tokens of a split restores the original string. */
  lemma {:induction false} JoinSplit(s: string)
    ensures Join(Split(s)) == s
    decreases |s|
  {
    if |s| < 2 {
    } else if s[0] == '|' && s[1] == '|' {
      JoinSplit(s[2..]);
      assert Split(s) == [""] + Split(s[2..]);
      assert s == "||" + s[2..];
    } else {
      var rest := Split(s[1..]);
      JoinSplit(s[1..]);
      assert Split(s) == [[s[0]] + rest[0]] + rest[1..];
      JoinPrefixFirst([s[0]], rest);
      assert s == [s[0]] + s[1..];
    }
  }

  /** `t` contains the separator somewhere. */
  ghost predicate HasDelimiter(t: string) {
    exists i :: 0 <= i < |t| - 1 && t[i] == '|' && t[i + 1] == '|'
  }

  /** The first token of a split is a prefix of the string. */
  lemma {:induction false} FirstTokenIsPrefix(s: string)
    ensures |Split(s)[0]| <= |s| && Split(s)[0] == s[..|Split(s)[0]|]
    decreases |s|
  {
    if |s| >= 2 && !(s[0] == '|' && s[1] == '|') {
      FirstTokenIsPrefix(s[1..]);
    }
  }

  /** No token of a split contains the separator. */
  lemma {:induction false} TokensHaveNoDelimiter(s: string)
    ensures forall k :: 0 <= k < |Split(s)| ==> !HasDelimiter(Split(s)[k])
    decreases |s|
  {
    if |s| < 2 {
    } else if s[0] == '|' && s[1] == '|' {
      TokensHaveNoDelimiter(s[2..]);
      assert Split(s) == [""] + Split(s[2..]);
    } else {
      var rest := Split(s[1..]);
      TokensHaveNoDelimiter(s[1..]);
      FirstTokenIsPrefix(s[1..]);
      var head := [s[0]] + rest[0];
      assert Split(s) == [head] + rest[1..];
      forall i | 0 <= i < |head| - 1
        ensures !(head[i] == '|' && head[i + 1] == '|')
      {
        if i == 0 {
          assert head[1] == rest[0][0] == s[1];
        } else {
          assert head[i] == rest[0][i - 1] && head[i + 1] == rest[0][i];
          assert !HasDelimiter(rest[0]);
        }
      }
    }
  }

  /**
   * A multi-valued text cell as a token list: `x.split('||') if pd.notna(x) and
   * isinstance(x, str) else []`. `None` stands for NaN and for any non-string value.
   */
  function SplitField(cell: Option<string>): (r: seq<string>)
    ensures cell.None? ==> r == []
    ensures cell.Some? ==> |r| >= 1 && Join(r) == cell.value
  {
    match cell
    case None => []
    case Some(s) => JoinSplit(s); Split(s)
  }

  /** The characters Python's `str.strip()` removes (`str.isspace`). */
  predicate IsSpace(c: char) {
    var n := c as int;
    || n == 0x20 || 0x09 <= n <= 0x0D || 0x1C <= n <= 0x1F || n == 0x85 || n == 0xA0
    || n == 0x1680 || 0x2000 <= n <= 0x200A || n == 0x2028 || n == 0x2029
    || n == 0x202F || n == 0x205F || n == 0x3000
  }

  ghost predicate AllSpace(s: string) {
    forall i :: 0 <= i < |s| ==> IsSpace(s[i])
  }

  /** Neither end of `t` is whitespace. */
  ghost predicate IsStripped(t: string) {
    t == [] || (!IsSpace(t[0]) && !IsSpace(t[|t| - 1]))
  }

  /**
   * `str.strip()`: `s` with the whitespace at both ends removed, one character
   * at a time from the front, then from the back.
   */
  function Strip(s: string): (r: string)
    ensures IsStripped(r)
    ensures |r| <= |s|
    decreases |s|
  {
    if |s| > 0 && IsSpace(s[0]) then Strip(s[1..])
    else if |s| > 0 && IsSpace(s[|s| - 1]) then Strip(s[..|s| - 1])
    else s
  }

  /** `r` sits in `s` at offset `i`, with only whitespace before and after it. */
  ghost predicate InfixAt(s: string, r: string, i: int) {
    0 <= i <= |s| - |r| && r == s[i..i + |r|] && AllSpace(s[..i]) && AllSpace(s[i + |r|..])
  }

  /** A leading whitespace character extends the whitespace before the infix. */
  lemma LeadingSpace(s: string, r: string, i: int)
    requires |s| > 0 && IsSpace(s[0]) && InfixAt(s[1..], r, i)
    ensures InfixAt(s, r, i + 1)
  {
    var t := s[1..];
    assert r == s[i + 1..i + 1 + |r|] by {
      assert t[i..i + |r|] == s[i + 1..i + 1 + |r|];
    }
    var before, rest := s[..i + 1], t[..i];
    forall k | 0 <= k < |before| ensures IsSpace(before[k]) {
      if k > 0 {
        assert before[k] == rest[k - 1];
      }
    }
    assert s[i + 1 + |r|..] == t[i + |r|..];
  }

  /** A trailing whitespace character extends the whitespace after the infix. */
  lemma TrailingSpace(s: string, r: string, i: int)
    requires |s| > 0 && IsSpace(s[|s| - 1]) && InfixAt(s[..|s| - 1], r, i)
    ensures InfixAt(s, r, i)
  {
    var t := s[..|s| - 1];
    assert r == s[i..i + |r|] by {
      assert t[i..i + |r|] == s[i..i + |r|];
    }
    assert s[..i] == t[..i];
    var after, rest := s[i + |r|..], t[i + |r|..];
    forall k | 0 <= k < |after| ensures IsSpace(after[k]) {
      if k < |rest| {
        assert after[k] == rest[k];
      }
    }
  }

  /** The stripped string is the infix of `s` whose outside is all whitespace. */
  lemma {:induction false} StripIsInfix(s: string)
    ensures exists i :: InfixAt(s, Strip(s), i)
    decreases |s|
  {
    var r := Strip(s);
    if |s| > 0 && IsSpace(s[0]) {
      StripIsInfix(s[1..]);
      var i :| InfixAt(s[1..], r, i);
      LeadingSpace(s, r, i);
    } else if |s| > 0 && IsSpace(s[|s| - 1]) {
      StripIsInfix(s[..|s| - 1]);
      var i :| InfixAt(s[..|s| - 1], r, i);
      TrailingSpace(s, r, i);
    } else {
      assert s[..0] == [] && s[|s|..] == [] && r == s[0..|s|];
      assert InfixAt(s, r, 0);
    }
  }

  /** A string with no whitespace at either end is left as it is. */
  lemma StrippedIsFixed(t: string)
    requires IsStripped(t)
    ensures Strip(t) == t
  {
  }

  /** Stripping twice is stripping once. */
  lemma StripIdempotent(s: string)
    ensures Strip(Strip(s)) == Strip(s)
  {
    StrippedIsFixed(Strip(s));
  }

  predicate NotComma(c: char) { c != ',' }
  predicate NotDollar(c: char) { c != '$' }

  /**
   * The prize-money cleaning `.str.replace(',', '').str.replace('$', '')`: every comma
   * and dollar sign removed, every other character kept with its multiplicity.
   */
  function CleanPrizeMoney(s: string): (r: string)
    ensures ',' !in r && '$' !in r
    ensures forall c :: c != ',' && c != '$' ==> multiset(r)[c] == multiset(s)[c]
    ensures |r| <= |s|
  {
    SelectCount(s, NotComma);
    SelectCount(Select(s, NotComma), NotDollar);
    Select(Select(s, NotComma), NotDollar)
  }

  /** Cleaning keeps the order of the characters: it distributes over concatenation. */
  lemma CleanPrizeMoneyAppend(a: string, b: string)
    ensures CleanPrizeMoney(a + b) == CleanPrizeMoney(a) + CleanPrizeMoney(b)
  {
    SelectAppend(a, b, NotComma);
    SelectAppend(Select(a, NotComma), Select(b, NotComma), NotDollar);
  }

  /** Cleaning an already clean string changes nothing. */
  lemma CleanPrizeMoneyIdempotent(s: string)
    ensures CleanPrizeMoney(CleanPrizeMoney(s)) == CleanPrizeMoney(s)
  {
    var t := CleanPrizeMoney(s);
    SelectAll(t, NotComma);
    SelectAll(t, NotDollar);
  }
}
