/**
 * The string primitives the bot relies on: Python's `str.strip(chars)`,
 * `int(str)` in base 10, `str(int)`, `str.replace('\n', ' ')` and
 * `sep.join(parts)`, together with the user-reference parse
 * `int(s.strip("<@!>"))` of the add-user and remove-user prompts.
 */
module Text {
  import opened Wrappers

  /** The ASCII characters Python treats as whitespace around an `int()` literal. */
  const Whitespace: set<char> :=
    {' ', '\t', '\n', '\r', '\U{0B}', '\U{0C}', '\U{1C}', '\U{1D}', '\U{1E}', '\U{1F}'}

  /** The characters stripped from a user mention such as `<@!123>`. */
  const MentionChars: set<char> := {'<', '@', '!', '>'}

  // ---------------------------------------------------------------- strip

  /** `s.lstrip(cs)`: drops the longest prefix made of characters in `cs`. */
  function StripLeft(s: string, cs: set<char>): (r: string)
    ensures |r| <= |s| && r == s[|s| - |r|..]
    ensures r == [] || r[0] !in cs
    ensures forall i :: 0 <= i < |s| - |r| ==> s[i] in cs
    decreases |s|
  {
    if |s| > 0 && s[0] in cs then StripLeft(s[1..], cs) else s
  }

  /** `s.rstrip(cs)`: drops the longest suffix made of characters in `cs`. */
  function StripRight(s: string, cs: set<char>): (r: string)
    ensures |r| <= |s| && r == s[..|r|]
    ensures r == [] || r[|r| - 1] !in cs
    ensures forall i :: |r| <= i < |s| ==> s[i] in cs
    decreases |s|
  {
    if |s| > 0 && s[|s| - 1] in cs then StripRight(s[..|s| - 1], cs) else s
  }

  /** `s.strip(cs)`: both ends. */
  function Strip(s: string, cs: set<char>): (r: string)
    ensures |r| <= |s|
    ensures r == [] || (r[0] !in cs && r[|r| - 1] !in cs)
  {
    StripRight(StripLeft(s, cs), cs)
  }

  lemma {:induction false} StripLeftOfPadded(p: string, core: string, cs: set<char>)
    requires forall i :: 0 <= i < |p| ==> p[i] in cs
    requires core != [] && core[0] !in cs
    ensures StripLeft(p + core, cs) == core
    decreases |p|
  {
    if p != [] {
      assert (p + core)[1..] == p[1..] + core;
      StripLeftOfPadded(p[1..], core, cs);
    }
  }

  lemma {:induction false} StripRightOfPadded(core: string, q: string, cs: set<char>)
    requires forall i :: 0 <= i < |q| ==> q[i] in cs
    requires core != [] && core[|core| - 1] !in cs
    ensures StripRight(core + q, cs) == core
    decreases |q|
  {
    if q != [] {
      assert (core + q)[..|core + q| - 1] == core + q[..|q| - 1];
      StripRightOfPadded(core, q[..|q| - 1], cs);
    }
  }

  /**
   * Strip removes exactly the padding: a core whose first and last
   * characters are kept survives any padding of stripped characters.
   */
  lemma StripPadded(p: string, core: string, q: string, cs: set<char>)
    requires forall i :: 0 <= i < |p| ==> p[i] in cs
    requires forall i :: 0 <= i < |q| ==> q[i] in cs
    requires core != [] && core[0] !in cs && core[|core| - 1] !in cs
    ensures Strip(p + core + q, cs) == core
  {
    assert p + core + q == p + (core + q);
    StripLeftOfPadded(p, core + q, cs);
    StripRightOfPadded(core, q, cs);
  }

  // ---------------------------------------------------------------- int()

  predicate IsDigit(ch: char) { '0' <= ch <= '9' }

  function DigitValue(ch: char): nat
    requires IsDigit(ch)
  {
    ch as int - '0' as int
  }

  function DigitChar(d: nat): (ch: char)
    requires d < 10
    ensures IsDigit(ch) && DigitValue(ch) == d
  {
    ('0' as int + d) as char
  }

  /**
   * The digit part Python's `int()` accepts in base 10: digits, with single
   * underscores allowed between two digits (`1_000`); leading zeros are
   * allowed (`007`).
   */
  predicate DigitGroup(t: string)
    decreases |t|
  {
    && |t| > 0
    && IsDigit(t[|t| - 1])
    && (|| |t| == 1
        || DigitGroup(t[..|t| - 1])
        || (|t| > 2 && t[|t| - 2] == '_' && DigitGroup(t[..|t| - 2])))
  }

  /** The value of a digit group, underscores ignored. */
  function GroupValue(t: string): nat
    requires DigitGroup(t)
    decreases |t|
  {
    var d := DigitValue(t[|t| - 1]);
    if |t| == 1 then d
    else if t[|t| - 2] == '_' then
      assert t[..|t| - 1][|t| - 2] == '_';
      assert !DigitGroup(t[..|t| - 1]);
      10 * GroupValue(t[..|t| - 2]) + d
    else 10 * GroupValue(t[..|t| - 1]) + d
  }

  /**
   * `int(s)`: surrounding whitespace is ignored, an optional sign is read,
   * and the rest must be a digit group; anything else raises ValueError,
   * modelled as None.
   */
  function ParseInt(s: string): Option<int> {
    var t := Strip(s, Whitespace);
    if |t| > 0 && (t[0] == '-' || t[0] == '+') then
      if DigitGroup(t[1..]) then
        var v: int := GroupValue(t[1..]);
        Some(if t[0] == '-' then -v else v)
      else None
    else if DigitGroup(t) then Some(GroupValue(t))
    else None
  }

  // ---------------------------------------------------------------- str()

  /** Decimal digits of a natural number, no leading zeros. */
  function NatToString(n: nat): (r: string)
    ensures |r| > 0 && forall i :: 0 <= i < |r| ==> IsDigit(r[i])
  {
    if n < 10 then [DigitChar(n)] else NatToString(n / 10) + [DigitChar(n % 10)]
  }

  /** `str(n)` for a Python int. */
  function IntToString(n: int): string {
    if n < 0 then "-" + NatToString(-n) else NatToString(n)
  }

  lemma {:induction false} NatToStringValue(n: nat)
    ensures DigitGroup(NatToString(n)) && GroupValue(NatToString(n)) == n
  {
    var r := NatToString(n);
    if n >= 10 {
      NatToStringValue(n / 10);
      assert r[..|r| - 1] == NatToString(n / 10);
    }
  }

  /** No character of a printed integer is whitespace or part of a mention. */
  lemma IntToStringChars(n: int)
    ensures var s := IntToString(n);
      && |s| > 0
      && (forall i :: 0 <= i < |s| ==> IsDigit(s[i]) || s[i] == '-')
      && IsDigit(s[|s| - 1])
  {
    var s := IntToString(n);
    if n < 0 {
      var d := NatToString(-n);
      assert s == "-" + d;
      assert forall i :: 1 <= i < |s| ==> s[i] == d[i - 1];
    }
  }

  /** A string that neither begins nor ends with a stripped character is left alone. */
  lemma StripUnpadded(s: string, cs: set<char>)
    requires s != [] && s[0] !in cs && s[|s| - 1] !in cs
    ensures Strip(s, cs) == s
  {
    StripPadded([], s, [], cs);
    assert [] + s + [] == s;
  }

  /** `int()` of an unpadded, unsigned digit group is the group's value. */
  lemma ParseIntOfDigitGroup(t: string)
    requires DigitGroup(t) && t[0] !in Whitespace && t[|t| - 1] !in Whitespace
    requires t[0] != '-' && t[0] != '+'
    ensures ParseInt(t) == Some(GroupValue(t))
  {
    StripUnpadded(t, Whitespace);
  }

  /** `int()` of an unpadded `-` followed by a digit group is the group's value negated. */
  lemma ParseIntOfNegatedGroup(t: string)
    requires |t| > 1 && t[0] == '-' && t[|t| - 1] !in Whitespace
    requires DigitGroup(t[1..])
    ensures ParseInt(t) == Some(-(GroupValue(t[1..]) as int))
  {
    StripUnpadded(t, Whitespace);
  }

  lemma ParseIntOfNatString(m: nat)
    ensures ParseInt(NatToString(m)) == Some(m)
  {
    NatToStringValue(m);
    var s := NatToString(m);
    assert IsDigit(s[0]) && IsDigit(s[|s| - 1]);
    ParseIntOfDigitGroup(s);
  }

  /** A printed negative integer is `-` followed by the digits of its magnitude. */
  lemma IntToStringNegative(n: int)
    requires n < 0
    ensures var s := IntToString(n);
      && |s| > 1 && s[0] == '-' && s[|s| - 1] !in Whitespace
      && DigitGroup(s[1..]) && GroupValue(s[1..]) == -n
  {
    var s := IntToString(n);
    var d := NatToString(-n);
    NatToStringValue(-n);
    assert s[1..] == d;
    assert s[|s| - 1] == d[|d| - 1];
  }

  /** `int(str(n)) == n`. */
  lemma ParseIntOfIntToString(n: int)
    ensures ParseInt(IntToString(n)) == Some(n)
  {
    if n < 0 {
      IntToStringNegative(n);
      ParseIntOfNegatedGroup(IntToString(n));
    } else {
      ParseIntOfNatString(n);
    }
  }

  // ---------------------------------------------------------------- user references

  /** `int(s.strip("<@!>"))`, the parse of a user id or mention. */
  function ParseUserRef(s: string): Option<int> {
    ParseInt(Strip(s, MentionChars))
  }

  /** A printed id wrapped in mention characters parses back to the id. */
  lemma ParseUserRefOfPadded(p: string, n: int, q: string)
    requires forall i :: 0 <= i < |p| ==> p[i] in MentionChars
    requires forall i :: 0 <= i < |q| ==> q[i] in MentionChars
    ensures ParseUserRef(p + IntToString(n) + q) == Some(n)
  {
    var s := IntToString(n);
    IntToStringChars(n);
    assert IsDigit(s[0]) || s[0] == '-';
    assert s[0] !in MentionChars && s[|s| - 1] !in MentionChars;
    StripPadded(p, s, q, MentionChars);
    ParseIntOfIntToString(n);
  }

  /** A mention `<@n>`, a nickname mention `<@!n>` and a bare id `n` all parse back to `n`. */
  lemma ParseUserRefOfMention(n: int)
    ensures ParseUserRef("<@" + IntToString(n) + ">") == Some(n)
    ensures ParseUserRef("<@!" + IntToString(n) + ">") == Some(n)
    ensures ParseUserRef(IntToString(n)) == Some(n)
  {
    ParseUserRefOfPadded("<@", n, ">");
    ParseUserRefOfPadded("<@!", n, ">");
    ParseUserRefOfPadded([], n, []);
    assert [] + IntToString(n) + [] == IntToString(n);
  }

  // ---------------------------------------------------------------- replace and join

  /** `s.replace('\n', ' ')`. */
  function ReplaceNewlines(s: string): (r: string)
    ensures |r| == |s|
    ensures forall i :: 0 <= i < |s| ==> r[i] == (if s[i] == '\n' then ' ' else s[i])
    ensures '\n' !in r
  {
    if s == [] then []
    else ReplaceNewlines(s[..|s| - 1]) + [if s[|s| - 1] == '\n' then ' ' else s[|s| - 1]]
  }

  /** `sep.join(parts)`. */
  function Join(parts: seq<string>, sep: string): (r: string)
    ensures parts == [] ==> r == []
    ensures |parts| == 1 ==> r == parts[0]
    ensures |parts| == 2 ==> r == parts[0] + sep + parts[1]
  {
    if parts == [] then []
    else if |parts| == 1 then parts[0]
    else Join(parts[..|parts| - 1], sep) + sep + parts[|parts| - 1]
  }

  /** Appending a part to a non-empty list appends the separator and that part to the join. */
  lemma JoinAppend(parts: seq<string>, p: string, sep: string)
    requires parts != []
    ensures Join(parts + [p], sep) == Join(parts, sep) + sep + p
  {
    assert (parts + [p])[..|parts|] == parts;
  }

  /** A character absent from every part and from the separator is absent from the join. */
  lemma {:induction false} JoinAvoids(parts: seq<string>, sep: string, ch: char)
    requires ch !in sep
    requires forall i :: 0 <= i < |parts| ==> ch !in parts[i]
    ensures ch !in Join(parts, sep)
  {
    if |parts| > 1 {
      JoinAvoids(parts[..|parts| - 1], sep, ch);
    }
  }
}
