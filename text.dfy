/**
 * The .NET string operations the handlers rely on, written out on `seq<char>`:
 * `Trim`, `TrimEnd(c)`, `Split` (on a character or a string, no options), `string.Join`,
 * `string.IsNullOrWhiteSpace`, `int.TryParse` / `int.Parse` and `int.ToString()`.
 */
module Text {
  import opened Wrappers

  // ---------------------------------------------------------------- white space

  /** The characters .NET accepts as white space around a number: U+0009..U+000D and U+0020. */
  predicate IsWhite(c: char) {
    c == ' ' || '\t' <= c <= '\r'
  }

  /** `string.IsNullOrWhiteSpace` (a null string is modelled as ""). */
  predicate IsBlank(s: string) {
    forall i :: 0 <= i < |s| ==> IsWhite(s[i])
  }

  function TrimStart(s: string): string {
    if |s| > 0 && IsWhite(s[0]) then TrimStart(s[1..]) else s
  }

  function TrimEnd(s: string): string {
    if |s| > 0 && IsWhite(s[|s| - 1]) then TrimEnd(s[..|s| - 1]) else s
  }

  /** `s.Trim()`. */
  function Trim(s: string): string {
    TrimEnd(TrimStart(s))
  }

  /** `TrimStart` drops exactly the leading white space. */
  lemma {:induction false} TrimStartSpec(s: string)
    ensures |TrimStart(s)| <= |s| && TrimStart(s) == s[|s| - |TrimStart(s)|..]
    ensures forall i :: 0 <= i < |s| - |TrimStart(s)| ==> IsWhite(s[i])
    ensures TrimStart(s) == [] || !IsWhite(TrimStart(s)[0])
  {
    if |s| > 0 && IsWhite(s[0]) {
      var t := s[1..];
      TrimStartSpec(t);
      assert s[|s| - |TrimStart(t)|..] == t[|t| - |TrimStart(t)|..];
      forall i | 1 <= i < |s| - |TrimStart(t)| ensures IsWhite(s[i]) {
        assert s[i] == t[i - 1];
      }
    }
  }

  /** `TrimEnd` drops exactly the trailing white space. */
  lemma {:induction false} TrimEndSpec(s: string)
    ensures |TrimEnd(s)| <= |s| && TrimEnd(s) == s[..|TrimEnd(s)|]
    ensures forall i :: |TrimEnd(s)| <= i < |s| ==> IsWhite(s[i])
    ensures TrimEnd(s) == [] || !IsWhite(TrimEnd(s)[|TrimEnd(s)| - 1])
  {
    if |s| > 0 && IsWhite(s[|s| - 1]) {
      TrimEndSpec(s[..|s| - 1]);
    }
  }

  /** `s.TrimEnd(c)`: every trailing `c` is removed. */
  function TrimEndChar(s: string, c: char): (r: string)
    ensures |r| <= |s| && r == s[..|r|]
    ensures forall i :: |r| <= i < |s| ==> s[i] == c
    ensures r == [] || r[|r| - 1] != c
  {
    if |s| > 0 && s[|s| - 1] == c then TrimEndChar(s[..|s| - 1], c) else s
  }

  lemma TrimUnchanged(s: string)
    requires s == [] || (!IsWhite(s[0]) && !IsWhite(s[|s| - 1]))
    ensures Trim(s) == s
  {
  }

  // ---------------------------------------------------------------- prefixes, case

  predicate StartsWith(s: string, prefix: string) {
    |prefix| <= |s| && s[..|prefix|] == prefix
  }

  function LowerChar(c: char): char {
    if 'A' <= c <= 'Z' then (c as int + 32) as char else c
  }

  /** `s.ToLower()` on ASCII letters; other characters are kept. */
  function ToLower(s: string): (r: string)
    ensures |r| == |s|
  {
    seq(|s|, i requires 0 <= i < |s| => LowerChar(s[i]))
  }

  // ---------------------------------------------------------------- searching and splitting

  /** `pat` occurs in `s` at position `i`. */
  predicate MatchAt(s: string, pat: string, i: int) {
    0 <= i && i + |pat| <= |s| && s[i..i + |pat|] == pat
  }

  lemma MatchAtTail(s: string, pat: string, j: int)
    requires |s| > 0 && 0 <= j
    ensures MatchAt(s[1..], pat, j) <==> MatchAt(s, pat, j + 1)
  {
    if j + |pat| <= |s| - 1 {
      assert s[1..][j..j + |pat|] == s[j + 1..j + 1 + |pat|];
    }
  }

  /** The first position at which `pat` occurs in `s`. */
  function Find(s: string, pat: string): (r: Option<nat>)
    requires |pat| > 0
    ensures r.Some? ==> r.value + |pat| <= |s|
    decreases |s|
  {
    if |s| < |pat| then None
    else if s[..|pat|] == pat then Some(0)
    else
      match Find(s[1..], pat)
      case None => None
      case Some(i) => Some(i + 1)
  }

  /** `Find` gives the first match, or `None` when there is none. */
  lemma FindSpec(s: string, pat: string)
    requires |pat| > 0
    ensures Find(s, pat).Some? ==> MatchAt(s, pat, Find(s, pat).value)
    ensures Find(s, pat).Some? ==> forall j :: 0 <= j < Find(s, pat).value ==> !MatchAt(s, pat, j)
    ensures Find(s, pat).None? ==> forall j :: !MatchAt(s, pat, j)
  {
    FindMatches(s, pat);
    FindFirst(s, pat);
  }

  /** No match comes before what `Find` returns, and there is none at all when it returns `None`. */
  lemma {:induction false} FindFirst(s: string, pat: string)
    requires |pat| > 0
    ensures Find(s, pat).Some? ==> forall j :: 0 <= j < Find(s, pat).value ==> !MatchAt(s, pat, j)
    ensures Find(s, pat).None? ==> forall j :: !MatchAt(s, pat, j)
    decreases |s|
  {
    if |s| >= |pat| && s[..|pat|] != pat {
      FindFirst(s[1..], pat);
      forall j | 1 <= j ensures MatchAt(s, pat, j) <==> MatchAt(s[1..], pat, j - 1) {
        MatchAtTail(s, pat, j - 1);
      }
      assert !MatchAt(s, pat, 0);
    }
  }

  /** What `Find` returns is a match. */
  lemma {:induction false} FindMatches(s: string, pat: string)
    requires |pat| > 0
    ensures Find(s, pat).Some? ==> MatchAt(s, pat, Find(s, pat).value)
    decreases |s|
  {
    if |s| >= |pat| && s[..|pat|] != pat {
      FindMatches(s[1..], pat);
      if Find(s[1..], pat).Some? {
        MatchAtTail(s, pat, Find(s[1..], pat).value);
      }
    }
  }

  /** `Find` returns `i` when `pat` occurs at `i` and nowhere before. */
  lemma FindIs(s: string, pat: string, i: nat)
    requires |pat| > 0 && MatchAt(s, pat, i)
    requires forall j :: 0 <= j < i ==> !MatchAt(s, pat, j)
    ensures Find(s, pat) == Some(i)
  {
    FindSpec(s, pat);
  }

  /** `string.Join(sep, parts)`. */
  function Join(parts: seq<string>, sep: string): string {
    if |parts| == 0 then ""
    else if |parts| == 1 then parts[0]
    else parts[0] + sep + Join(parts[1..], sep)
  }

  /**
   * `s.Split(sep)` for a non-empty separator and no options: the pieces between the
   * occurrences of `sep`, found left to right; there is always at least one piece.
   * `Split(char c)` is `SplitOn(s, [c])`.
   */
  function SplitOn(s: string, sep: string): (r: seq<string>)
    requires |sep| > 0
    ensures |r| >= 1
    decreases |s|
  {
    match Find(s, sep)
    case None => [s]
    case Some(i) => [s[..i]] + SplitOn(s[i + |sep|..], sep)
  }

  /** Joining the pieces with the separator gives back the text. */
  lemma {:induction false} SplitOnSpec(s: string, sep: string)
    requires |sep| > 0
    ensures Join(SplitOn(s, sep), sep) == s
    decreases |s|
  {
    FindMatches(s, sep);
    match Find(s, sep)
    case None =>
    case Some(i) =>
      var rest := SplitOn(s[i + |sep|..], sep);
      SplitOnSpec(s[i + |sep|..], sep);
      var r := [s[..i]] + rest;
      assert SplitOn(s, sep) == r;
      assert r[1..] == rest;
      assert Join(r, sep) == s[..i] + sep + Join(rest, sep);
      assert s == s[..i] + sep + s[i + |sep|..];
  }

  /** `s.Split(sep)[0]`: the text before the first occurrence of `sep`, or all of `s`. */
  function Before(s: string, sep: string): (r: string)
    requires |sep| > 0
    ensures StartsWith(s, r)
  {
    var parts := SplitOn(s, sep);
    SplitOnSpec(s, sep);
    JoinStartsWithFirst(parts, sep);
    parts[0]
  }

  lemma JoinStartsWithFirst(parts: seq<string>, sep: string)
    requires |parts| >= 1
    ensures StartsWith(Join(parts, sep), parts[0])
  {
  }

  /** No character of `s` is the first character of `sep`. */
  predicate Free(s: string, sep: string)
    requires |sep| > 0
  {
    forall i :: 0 <= i < |s| ==> s[i] != sep[0]
  }

  /** Joining pieces none of which holds the separator's first character and splitting the
      result again gives back the pieces. */
  lemma {:induction false} SplitOnJoin(parts: seq<string>, sep: string)
    requires |sep| > 0 && |parts| >= 1
    requires forall k :: 0 <= k < |parts| ==> Free(parts[k], sep)
    ensures SplitOn(Join(parts, sep), sep) == parts
  {
    var s := Join(parts, sep);
    var p := parts[0];
    if |parts| == 1 {
      assert s == p;
      NoMatchInFree(p, sep);
    } else {
      var tail := Join(parts[1..], sep);
      assert s == p + sep + tail;
      assert s[|p|..|p| + |sep|] == sep;
      assert MatchAt(s, sep, |p|);
      forall j | 0 <= j < |p| ensures !MatchAt(s, sep, j) {
        assert s[j] == p[j];
      }
      FindIs(s, sep, |p|);
      assert s[..|p|] == p;
      assert s[|p| + |sep|..] == tail;
      assert SplitOn(s, sep) == [p] + SplitOn(tail, sep);
      SplitOnJoin(parts[1..], sep);
    }
  }

  lemma NoMatchInFree(s: string, sep: string)
    requires |sep| > 0 && Free(s, sep)
    ensures SplitOn(s, sep) == [s]
  {
    FindSpec(s, sep);
  }

  /** "Mods by X" and every other text that starts with the separator has an empty first piece. */
  lemma BeforeOfPrefixed(sep: string, x: string)
    requires |sep| > 0
    ensures Before(sep + x, sep) == ""
  {
    var s := sep + x;
    assert s[0..|sep|] == sep;
    FindIs(s, sep, 0);
  }

  // ---------------------------------------------------------------- integers

  const MinInt32: int := -0x8000_0000
  const MaxInt32: int := 0x7fff_ffff

  predicate IsInt32(n: int) {
    MinInt32 <= n <= MaxInt32
  }

  predicate IsDigit(c: char) {
    '0' <= c <= '9'
  }

  predicate AllDigits(s: string) {
    forall i :: 0 <= i < |s| ==> IsDigit(s[i])
  }

  /** The value of a run of decimal digits; `None` when some character is not a digit. */
  function DigitsValue(s: string): Option<nat> {
    if |s| == 0 then Some(0)
    else
      var d := s[|s| - 1];
      match DigitsValue(s[..|s| - 1])
      case None => None
      case Some(n) => if IsDigit(d) then Some(n * 10 + (d as int - '0' as int)) else None
  }

  /**
   * `int.TryParse(s, out v)`: optional white space, an optional sign, one or more decimal
   * digits, optional white space, and a value inside the 32-bit range. `int.Parse`
   * accepts exactly the same strings and throws where this gives `None`.
   */
  function ParseInt(s: string): (r: Option<int>)
    ensures r.Some? ==> IsInt32(r.value)
  {
    var t := Trim(s);
    if |t| == 0 then None
    else
      var digits := if t[0] == '-' || t[0] == '+' then t[1..] else t;
      if |digits| == 0 then None
      else
        match DigitsValue(digits)
        case None => None
        case Some(n) =>
          var v: int := if t[0] == '-' then -(n as int) else n;
          if IsInt32(v) then Some(v) else None
  }

  function DigitChar(d: nat): char
    requires d < 10
  {
    ('0' as int + d) as char
  }

  function NatToString(n: nat): (s: string)
    ensures |s| >= 1 && AllDigits(s) && DigitsValue(s) == Some(n)
  {
    if n < 10 then [DigitChar(n)]
    else
      var s := NatToString(n / 10) + [DigitChar(n % 10)];
      assert s[..|s| - 1] == NatToString(n / 10);
      s
  }

  /** `n.ToString()`: a minus sign for negative values, then the decimal digits. */
  function IntToString(n: int): (s: string)
    ensures |s| >= 1
    ensures forall i :: 0 <= i < |s| ==> s[i] == '-' || IsDigit(s[i])
    ensures IsDigit(s[|s| - 1])
  {
    if n < 0 then "-" + NatToString(-n) else NatToString(n)
  }

  /** Printing a 32-bit integer and parsing it back gives the same integer. */
  lemma ParseIntToString(n: int)
    requires IsInt32(n)
    ensures ParseInt(IntToString(n)) == Some(n)
  {
    var s := IntToString(n);
    assert !IsWhite(s[0]) && !IsWhite(s[|s| - 1]);
    TrimUnchanged(s);
    if n < 0 {
      assert s[1..] == NatToString(-n);
    }
  }

  /** Blank text (in particular "") never reads as a number. */
  lemma ParseBlankFails(s: string)
    requires IsBlank(s)
    ensures ParseInt(s) == None
  {
    TrimStartSpec(s);
  }
}
