/**
 * The Python 2 built-ins that the modelled code relies on, written out so that
 * their edge cases (an empty separator, a negative slice bound, a token without
 * a separator) are stated rather than assumed: `str.split()`, `str.split('/')`,
 * `str.join`, `str.replace`, `os.path.basename`, `str.startswith`,
 * `str.isdigit`, `'%d' % n`, `int(s)`, `s[:n]` and `str.lower()`.
 */
module PyBuiltins {

  datatype Option<+T> = None | Some(value: T)

  /** The Python exceptions the modelled code can raise or exit with. */
  datatype PyError = KeyError | AttributeError | NameError | ValueError | TypeError | IndexError | SystemExit

  datatype Result<+T> = Ok(value: T) | Err(error: PyError)

  /** Characters for which Python 2.7's `unicode.isspace()` holds (its
      Unicode 5.2 database, where U+180E is still a space separator). */
  predicate IsSpace(c: char) {
    c == ' ' || ('\t' <= c <= '\r') || ('\U{1C}' <= c <= '\U{1F}') || c == '\U{85}' || c == '\U{A0}'
    || c == '\U{1680}' || c == '\U{180E}' || ('\U{2000}' <= c <= '\U{200A}') || c == '\U{2028}' || c == '\U{2029}'
    || c == '\U{202F}' || c == '\U{205F}' || c == '\U{3000}'
  }

  predicate NoSpace(s: string) {
    forall i :: 0 <= i < |s| ==> !IsSpace(s[i])
  }

  /** A word that `str.split()` returns unchanged: non-empty, without whitespace. */
  predicate IsToken(s: string) {
    |s| > 0 && NoSpace(s)
  }

  /** The longest prefix of `s` without whitespace. */
  function TokenPrefix(s: string): (t: string)
    ensures |t| <= |s| && t == s[..|t|] && NoSpace(t)
    ensures |t| < |s| ==> IsSpace(s[|t|])
  {
    if s == [] || IsSpace(s[0]) then [] else [s[0]] + TokenPrefix(s[1..])
  }

  /** `s.split()`: the maximal runs of non-whitespace characters, in order. */
  function SplitWs(s: string): (r: seq<string>)
    decreases |s|
  {
    if s == [] then []
    else if IsSpace(s[0]) then SplitWs(s[1..])
    else
      var t := TokenPrefix(s);
      [t] + SplitWs(s[|t|..])
  }

  lemma {:induction false} SplitWsTokens(s: string)
    ensures forall k :: 0 <= k < |SplitWs(s)| ==> IsToken(SplitWs(s)[k])
    decreases |s|
  {
    if s == [] {
    } else if IsSpace(s[0]) {
      SplitWsTokens(s[1..]);
    } else {
      var t := TokenPrefix(s);
      SplitWsTokens(s[|t|..]);
    }
  }

  /** `sep.join(parts)`. */
  function Join(parts: seq<string>, sep: string): (r: string)
  {
    if parts == [] then []
    else if |parts| == 1 then parts[0]
    else parts[0] + sep + Join(parts[1..], sep)
  }

  lemma TokenPrefixOfToken(t: string, rest: string)
    requires IsToken(t)
    requires rest == [] || IsSpace(rest[0])
    ensures TokenPrefix(t + rest) == t
    decreases |t|
  {
    if |t| > 1 {
      assert (t + rest)[1..] == t[1..] + rest;
      TokenPrefixOfToken(t[1..], rest);
    } else {
      assert (t + rest)[1..] == rest;
    }
  }

  /** A token followed by whitespace or by nothing is split off whole. */
  lemma SplitWsCons(t: string, rest: string)
    requires IsToken(t)
    requires rest == [] || IsSpace(rest[0])
    ensures SplitWs(t + rest) == [t] + SplitWs(rest)
  {
    var s := t + rest;
    TokenPrefixOfToken(t, rest);
    assert s[0] == t[0];
    assert s[|t|..] == rest;
  }

  /** Splitting words joined by single spaces gives the words back. */
  lemma {:induction false} SplitWsJoin(ws: seq<string>)
    requires forall k :: 0 <= k < |ws| ==> IsToken(ws[k])
    ensures SplitWs(Join(ws, " ")) == ws
    decreases |ws|
  {
    if |ws| == 1 {
      SplitWsCons(ws[0], []);
      assert ws[0] + [] == ws[0];
    } else if |ws| > 1 {
      var tail := Join(ws[1..], " ");
      var rest := " " + tail;
      JoinCons(ws[0], ws[1..], " ");
      assert ws == [ws[0]] + ws[1..];
      assert Join(ws, " ") == ws[0] + rest;
      SplitWsSpace(tail);
      SplitWsCons(ws[0], rest);
      SplitWsJoin(ws[1..]);
    }
  }

  lemma SplitWsSpace(s: string)
    ensures SplitWs(" " + s) == SplitWs(s)
  {
    assert (" " + s)[1..] == s;
  }

  /** `s.split(sep)` for a one-character separator: never empty. */
  function SplitOn(s: string, sep: char): (r: seq<string>)
    ensures |r| >= 1
    decreases |s|
  {
    if sep !in s then [s]
    else
      var i := IndexOf(s, sep);
      [s[..i]] + SplitOn(s[i + 1..], sep)
  }

  function IndexOf(s: string, c: char): (i: nat)
    requires c in s
    ensures i < |s| && s[i] == c && c !in s[..i]
  {
    if s[0] == c then 0 else 1 + IndexOf(s[1..], c)
  }

  lemma {:induction false} SplitOnParts(s: string, sep: char)
    ensures forall k :: 0 <= k < |SplitOn(s, sep)| ==> sep !in SplitOn(s, sep)[k]
    decreases |s|
  {
    if sep in s {
      var i := IndexOf(s, sep);
      SplitOnParts(s[i + 1..], sep);
    }
  }

  lemma JoinCons(p: string, rest: seq<string>, sep: string)
    requires |rest| >= 1
    ensures Join([p] + rest, sep) == p + sep + Join(rest, sep)
  {
    assert ([p] + rest)[1..] == rest;
  }

  lemma {:induction false} JoinSnoc(parts: seq<string>, x: string, sep: string)
    requires |parts| >= 1
    ensures Join(parts + [x], sep) == Join(parts, sep) + sep + x
    decreases |parts|
  {
    if |parts| == 1 {
      assert (parts + [x])[1..] == [x];
    } else {
      assert (parts + [x])[1..] == parts[1..] + [x];
      JoinSnoc(parts[1..], x, sep);
    }
  }

  lemma SplitOnCons(s: string, sep: char, i: nat)
    requires sep in s && i == IndexOf(s, sep)
    ensures SplitOn(s, sep) == [s[..i]] + SplitOn(s[i + 1..], sep)
    ensures s == s[..i] + [sep] + s[i + 1..]
  {
  }

  /** Joining the parts of a split with the separator gives the string back. */
  lemma {:induction false} JoinSplitOn(s: string, sep: char)
    ensures Join(SplitOn(s, sep), [sep]) == s
    decreases |s|
  {
    if sep in s {
      var i := IndexOf(s, sep);
      var tail := s[i + 1..];
      SplitOnCons(s, sep, i);
      JoinCons(s[..i], SplitOn(tail, sep), [sep]);
      JoinSplitOn(tail, sep);
    }
  }

  /** `s.startswith(p)`. */
  predicate StartsWith(s: string, p: string) {
    |p| <= |s| && s[..|p|] == p
  }

  /** `s.replace(pat, rep)`: leftmost non-overlapping occurrences; an empty `pat`
      inserts `rep` before every character and at the end. */
  function Replace(s: string, pat: string, rep: string): (r: string)
    decreases |s|
  {
    if pat == [] then
      if s == [] then rep else rep + [s[0]] + Replace(s[1..], pat, rep)
    else if |s| < |pat| then s
    else if s[..|pat|] == pat then rep + Replace(s[|pat|..], pat, rep)
    else [s[0]] + Replace(s[1..], pat, rep)
  }

  /** `os.path.basename(p)`: what follows the last '/'. */
  function Basename(p: string): string
  {
    if p == [] then []
    else if p[|p| - 1] == '/' then []
    else Basename(p[..|p| - 1]) + [p[|p| - 1]]
  }

  /** The basename is the longest suffix without '/'. */
  lemma {:induction false} BasenameSuffix(p: string)
    ensures |Basename(p)| <= |p| && Basename(p) == p[|p| - |Basename(p)|..] && '/' !in Basename(p)
    ensures |Basename(p)| < |p| ==> p[|p| - |Basename(p)| - 1] == '/'
  {
    if p != [] && p[|p| - 1] != '/' {
      var init := p[..|p| - 1];
      BasenameSuffix(init);
      var b := Basename(init);
      assert Basename(p) == b + [p[|p| - 1]];
      assert init[|init| - |b|..] + [p[|p| - 1]] == p[|p| - |b| - 1..];
    }
  }

  predicate IsAsciiDigit(c: char) {
    '0' <= c <= '9'
  }

  /** `s.isdigit()` restricted to the ASCII digits. */
  predicate IsDigitString(s: string) {
    |s| > 0 && forall i :: 0 <= i < |s| ==> IsAsciiDigit(s[i])
  }

  function DigitValue(c: char): nat
    requires IsAsciiDigit(c)
  {
    (c as int) - ('0' as int)
  }

  function DigitChar(d: nat): (c: char)
    requires d < 10
    ensures IsAsciiDigit(c) && DigitValue(c) == d
  {
    (('0' as int) + d) as char
  }

  /** The decimal value of a string of ASCII digits. */
  function DigitsValue(s: string): nat
    requires forall i :: 0 <= i < |s| ==> IsAsciiDigit(s[i])
  {
    if s == [] then 0 else 10 * DigitsValue(s[..|s| - 1]) + DigitValue(s[|s| - 1])
  }

  /** `'%d' % n` for a non-negative `n`. */
  function NatToDecimal(n: nat): (s: string)
    ensures IsDigitString(s)
  {
    if n < 10 then [DigitChar(n)] else NatToDecimal(n / 10) + [DigitChar(n % 10)]
  }

  /** `'%d' % i`. */
  function IntToDecimal(i: int): (s: string)
  {
    if i < 0 then "-" + NatToDecimal(-i) else NatToDecimal(i)
  }

  /** `int(s)` for a string without surrounding whitespace: an optional sign and
      at least one ASCII digit; anything else is Python's ValueError (None). */
  function ParseInt(s: string): (r: Option<int>)
  {
    if |s| > 0 && (s[0] == '-' || s[0] == '+') then
      if IsDigitString(s[1..]) then
        var v: int := DigitsValue(s[1..]);
        Some(if s[0] == '-' then -v else v)
      else None
    else if IsDigitString(s) then Some(DigitsValue(s))
    else None
  }

  lemma {:induction false} DigitsValueOfDecimal(n: nat)
    ensures DigitsValue(NatToDecimal(n)) == n
  {
    if n >= 10 {
      var s := NatToDecimal(n);
      assert s[..|s| - 1] == NatToDecimal(n / 10);
      DigitsValueOfDecimal(n / 10);
    }
  }

  lemma DigitStringNoSpace(s: string)
    requires IsDigitString(s)
    ensures IsToken(s)
  {
    forall k | 0 <= k < |s| ensures !IsSpace(s[k]) {
      assert '0' <= s[k] <= '9';
    }
  }

  /** `int('%d' % i) == i`. */
  lemma ParseIntDecimal(i: int)
    ensures ParseInt(IntToDecimal(i)) == Some(i)
    ensures IsToken(IntToDecimal(i))
  {
    var s := IntToDecimal(i);
    if i < 0 {
      var d := NatToDecimal(-i);
      assert s == "-" + d;
      assert s[0] == '-' && s[1..] == d;
      DigitsValueOfDecimal(-i);
      DigitStringNoSpace(d);
      assert ParseInt(s) == Some(-(DigitsValue(d) as int));
      forall k | 0 <= k < |s| ensures !IsSpace(s[k]) {
        if k > 0 {
          assert s[k] == d[k - 1];
        }
      }
    } else {
      var d := NatToDecimal(i);
      assert s == d;
      DigitsValueOfDecimal(i);
      DigitStringNoSpace(d);
      assert IsAsciiDigit(d[0]);
    }
  }

  /** `s[:n]` including Python's meaning of a negative bound. */
  function Take<T>(s: seq<T>, n: int): (r: seq<T>)
    ensures |r| == if n >= 0 then (if n < |s| then n else |s|) else (if |s| + n > 0 then |s| + n else 0)
    ensures r == s[..|r|]
  {
    if n >= 0 then (if n < |s| then s[..n] else s)
    else if |s| + n > 0 then s[..|s| + n] else []
  }

  /** `str.lower()` on the ASCII letters. */
  function LowerChar(c: char): char {
    if 'A' <= c <= 'Z' then ((c as int) + 32) as char else c
  }

  function Lower(s: string): (r: string)
    ensures |r| == |s|
    ensures forall i :: 0 <= i < |s| ==> r[i] == LowerChar(s[i])
  {
    if s == [] then [] else [LowerChar(s[0])] + Lower(s[1..])
  }

  /** A sequence without repetitions has as many elements as its set. */
  lemma {:induction false} DistinctCardinality<T>(s: seq<T>)
    requires forall i, j :: 0 <= i < j < |s| ==> s[i] != s[j]
    ensures |set x | x in s| == |s|
  {
    if s != [] {
      var init := s[..|s| - 1];
      assert s == init + [s[|s| - 1]];
      DistinctCardinality(init);
      assert (set x | x in s) == (set x | x in init) + {s[|s| - 1]};
      assert s[|s| - 1] !in init;
    }
  }

  /** A non-empty set has an element to pick. */
  lemma NonEmptySet<T>(s: set<T>)
    requires s != {}
    ensures exists x :: x in s
  {
  }

  /** The same for integers, through a set of pairs: the solver's direct
      route for `set<int>` is not reliable. */
  lemma NonEmptyIntSet(s: set<int>)
    requires s != {}
    ensures exists x :: x in s
  {
    var t := set x | x in s :: (x, 0);
    assert t != {} by {
      if t == {} {
        assert forall x :: x in s ==> (x, 0) in t;
      }
    }
    var p :| p in t;
    assert p.0 in s;
  }

  /** `keys` lists every element of `ks` exactly once, as a dict's `keys()` does. */
  predicate Enumerates<K>(keys: seq<K>, ks: set<K>) {
    (forall i, j :: 0 <= i < j < |keys| ==> keys[i] != keys[j])
    && (forall i :: 0 <= i < |keys| ==> keys[i] in ks)
    && (forall k :: k in ks ==> k in keys)
  }
}
