/**
 * The Python string and dictionary builtins the bot's response handling relies on,
 * written out with their CPython semantics: `str.isspace`, `strip()`, `split(sep)`,
 * `split()`, `find(sub, start)`, `sep.join(parts)`, `replace`, `title()`, `str(n)`,
 * the `in` substring test and `dict(zip(keys, values))` read through `.get(k, '')`.
 */
module PyBuiltins {

  /** `c.isspace()`: the characters CPython's `strip()` and `split()` treat as whitespace. */
  predicate IsSpace(c: char) {
    var n := c as int;
    (0x09 <= n <= 0x0D) || (0x1C <= n <= 0x20) || n == 0x85 || n == 0xA0 || n == 0x1680
    || (0x2000 <= n <= 0x200A) || n == 0x2028 || n == 0x2029 || n == 0x202F
    || n == 0x205F || n == 0x3000
  }

  predicate AllSpace(s: string) {
    forall i :: 0 <= i < |s| ==> IsSpace(s[i])
  }

  /** Length of the whitespace run at the start of `s`. */
  function SpaceRun(s: string): (n: nat)
    ensures n <= |s|
    ensures forall i :: 0 <= i < n ==> IsSpace(s[i])
    ensures n < |s| ==> !IsSpace(s[n])
  {
    if s == [] || !IsSpace(s[0]) then 0 else 1 + SpaceRun(s[1..])
  }

  /** Length of the whitespace run at the end of `s`. */
  function TrailingSpaceRun(s: string): (n: nat)
    ensures n <= |s|
    ensures forall i :: |s| - n <= i < |s| ==> IsSpace(s[i])
    ensures n < |s| ==> !IsSpace(s[|s| - 1 - n])
  {
    if s == [] || !IsSpace(s[|s| - 1]) then 0 else 1 + TrailingSpaceRun(s[..|s| - 1])
  }

  /** `s.strip()`: the text between the leading and the trailing whitespace runs. */
  function Strip(s: string): (r: string)
    ensures SpaceRun(s) + |r| <= |s| && r == s[SpaceRun(s)..SpaceRun(s) + |r|]
    ensures AllSpace(s[..SpaceRun(s)]) && AllSpace(s[SpaceRun(s) + |r|..])
    ensures r == "" <==> AllSpace(s)
    ensures r != "" ==> !IsSpace(r[0]) && !IsSpace(r[|r| - 1])
    ensures |r| <= |s|
  {
    var a := SpaceRun(s);
    if a == |s| then "" else s[a..|s| - TrailingSpaceRun(s)]
  }

  /** Number of occurrences of `c` in `s`. */
  function Count(s: string, c: char): (n: nat)
    ensures n == 0 <==> c !in s
  {
    if s == [] then 0 else (if s[0] == c then 1 else 0) + Count(s[1..], c)
  }

  /**
   * `s.split(sep)` for a one-character separator: every separator cuts, so empty parts
   * are kept and there is always one part more than there are separators.
   */
  function SplitOn(s: string, sep: char): (parts: seq<string>)
    ensures |parts| == Count(s, sep) + 1
    ensures forall i :: 0 <= i < |parts| ==> sep !in parts[i]
  {
    if s == [] then [""]
    else
      var rest := SplitOn(s[1..], sep);
      if s[0] == sep then [""] + rest else [[s[0]] + rest[0]] + rest[1..]
  }

  /** `sep.join(parts)`. */
  function Join(sep: string, parts: seq<string>): string {
    if |parts| == 0 then ""
    else if |parts| == 1 then parts[0]
    else parts[0] + sep + Join(sep, parts[1..])
  }

  /** Joining the parts of a split with the same separator gives back the text. */
  lemma {:induction false} JoinSplitOn(s: string, sep: char)
    ensures Join([sep], SplitOn(s, sep)) == s
  {
    if s != [] {
      var rest := SplitOn(s[1..], sep);
      JoinSplitOn(s[1..], sep);
      if s[0] == sep {
        assert ([""] + rest)[1..] == rest;
      } else if |rest| > 1 {
        assert ([[s[0]] + rest[0]] + rest[1..])[1..] == rest[1..];
      }
    }
  }

  /** Joining after appending one more part puts one more separator before it. */
  lemma {:induction false} JoinSnoc(sep: string, parts: seq<string>, x: string)
    requires |parts| >= 1
    ensures Join(sep, parts + [x]) == Join(sep, parts) + sep + x
  {
    if |parts| > 1 {
      assert (parts + [x])[1..] == parts[1..] + [x];
      JoinSnoc(sep, parts[1..], x);
    }
  }

  /** A join of three or more parts: the first part, the joined middle, the last part. */
  lemma JoinOuter(sep: string, parts: seq<string>)
    requires |parts| > 2
    ensures Join(sep, parts) == parts[0] + sep + Join(sep, parts[1..|parts| - 1]) + sep + parts[|parts| - 1]
  {
    var middle := parts[1..|parts| - 1];
    assert parts[1..] == middle + [parts[|parts| - 1]];
    JoinSnoc(sep, middle, parts[|parts| - 1]);
  }

  /** The index of the first non-whitespace character at or after `i`, or `|s|`. */
  function SkipSpaces(s: string, i: nat): (j: nat)
    requires i <= |s|
    ensures i <= j <= |s|
    ensures forall p :: i <= p < j ==> IsSpace(s[p])
    ensures j < |s| ==> !IsSpace(s[j])
    decreases |s| - i
  {
    if i == |s| || !IsSpace(s[i]) then i else SkipSpaces(s, i + 1)
  }

  /** The index of the first whitespace character at or after `i`, or `|s|`. */
  function SkipWord(s: string, i: nat): (j: nat)
    requires i <= |s|
    ensures i <= j <= |s|
    ensures forall p :: i <= p < j ==> !IsSpace(s[p])
    ensures j < |s| ==> IsSpace(s[j])
    decreases |s| - i
  {
    if i == |s| || IsSpace(s[i]) then i else SkipWord(s, i + 1)
  }

  /** The words of `s[i..].split()`. */
  function WordsFrom(s: string, i: nat): seq<string>
    requires i <= |s|
    decreases |s| - i
  {
    var k := SkipSpaces(s, i);
    if k == |s| then []
    else
      var e := SkipWord(s, k);
      [s[k..e]] + WordsFrom(s, e)
  }

  /** `s.split()`: the maximal runs of non-whitespace, in order; whitespace is dropped. */
  function SplitWs(s: string): (r: seq<string>)
    ensures r == [] <==> AllSpace(s)
  {
    WordsFrom(s, 0)
  }

  /** Every word of `s[i..].split()` is non-empty and free of whitespace. */
  lemma {:induction false} WordsFromWords(s: string, i: nat)
    requires i <= |s|
    ensures forall n :: 0 <= n < |WordsFrom(s, i)| ==> WordsFrom(s, i)[n] != ""
    ensures forall n, j :: 0 <= n < |WordsFrom(s, i)| && 0 <= j < |WordsFrom(s, i)[n]| ==> !IsSpace(WordsFrom(s, i)[n][j])
    decreases |s| - i
  {
    var k := SkipSpaces(s, i);
    if k < |s| {
      WordsFromWords(s, SkipWord(s, k));
    }
  }

  /** Every word of `s.split()` is non-empty and free of whitespace. */
  lemma SplitWsWords(s: string)
    ensures forall n :: 0 <= n < |SplitWs(s)| ==> SplitWs(s)[n] != ""
    ensures forall n, j :: 0 <= n < |SplitWs(s)| && 0 <= j < |SplitWs(s)[n]| ==> !IsSpace(SplitWs(s)[n][j])
  {
    WordsFromWords(s, 0);
  }

  /** `sub in s`. */
  predicate Contains(s: string, sub: string) {
    exists i :: 0 <= i <= |s| && StartsWith(s[i..], sub)
  }

  predicate StartsWith(s: string, prefix: string) {
    |prefix| <= |s| && s[..|prefix|] == prefix
  }

  /** A text that lacks a character of `sub` cannot contain `sub`. */
  lemma MissingCharNotContained(s: string, sub: string, k: nat)
    requires k < |sub| && sub[k] !in s
    ensures !Contains(s, sub)
  {
  }

  /** `sub` occurs in `s` at position `j`. */
  predicate MatchesAt(s: string, sub: string, j: nat) {
    j + |sub| <= |s| && s[j..j + |sub|] == sub
  }

  /**
   * `s.find(sub, start)` for a non-negative start: the first position at or after
   * `start` where `sub` occurs, or -1.
   */
  function Find(s: string, sub: string, start: nat): (r: int)
    ensures r == -1 || (start <= r && MatchesAt(s, sub, r))
    ensures r == -1 ==> forall j :: start <= j ==> !MatchesAt(s, sub, j)
    ensures r != -1 ==> forall j :: start <= j < r ==> !MatchesAt(s, sub, j)
    decreases |s| + 1 - start
  {
    if start + |sub| > |s| then -1
    else if s[start..start + |sub|] == sub then start
    else Find(s, sub, start + 1)
  }

  /** `s.replace(from, to)` for single characters. */
  function ReplaceChar(s: string, from: char, to: char): (r: string)
    ensures |r| == |s|
    ensures forall i :: 0 <= i < |s| ==> r[i] == if s[i] == from then to else s[i]
  {
    if s == [] then [] else [if s[0] == from then to else s[0]] + ReplaceChar(s[1..], from, to)
  }

  predicate IsUpper(c: char) { 'A' <= c <= 'Z' }
  predicate IsLower(c: char) { 'a' <= c <= 'z' }
  /** Cased characters; only the ASCII letters are, in this model. */
  predicate IsCased(c: char) { IsUpper(c) || IsLower(c) }

  function ToUpper(c: char): char {
    if IsLower(c) then (c as int - 32) as char else c
  }

  function ToLower(c: char): char {
    if IsUpper(c) then (c as int + 32) as char else c
  }

  /**
   * CPython's `title()` loop: a character after a cased one is lowered, any other is upcased;
   * `previousCased` says whether the character before `s` was cased.
   */
  function TitleFrom(s: string, previousCased: bool): (r: string)
    ensures |r| == |s|
    ensures forall i :: 0 <= i < |s| ==>
      r[i] == if (if i == 0 then previousCased else IsCased(s[i - 1])) then ToLower(s[i]) else ToUpper(s[i])
  {
    if s == [] then []
    else [if previousCased then ToLower(s[0]) else ToUpper(s[0])] + TitleFrom(s[1..], IsCased(s[0]))
  }

  /**
   * `s.title()`: a cased letter is upper case when it opens the text or follows an uncased
   * character, and lower case when it follows a cased one.
   */
  function Title(s: string): (r: string)
    ensures |r| == |s|
    ensures forall i :: 0 <= i < |s| ==>
      r[i] == if i > 0 && IsCased(s[i - 1]) then ToLower(s[i]) else ToUpper(s[i])
  {
    TitleFrom(s, false)
  }

  /** Title-casing changes only cased characters and keeps every other one in place. */
  lemma {:induction false} TitleKeepsUncased(s: string, previousCased: bool)
    ensures forall i :: 0 <= i < |s| && !IsCased(s[i]) ==> TitleFrom(s, previousCased)[i] == s[i]
    ensures forall i :: 0 <= i < |s| ==> IsCased(TitleFrom(s, previousCased)[i]) == IsCased(s[i])
  {
    if s != [] {
      TitleKeepsUncased(s[1..], IsCased(s[0]));
    }
  }

  /** Title-casing twice is title-casing once. */
  lemma {:induction false} TitleIdempotent(s: string, previousCased: bool)
    ensures TitleFrom(TitleFrom(s, previousCased), previousCased) == TitleFrom(s, previousCased)
  {
    if s != [] {
      var t := TitleFrom(s, previousCased);
      assert t[1..] == TitleFrom(s[1..], IsCased(s[0]));
      assert IsCased(t[0]) == IsCased(s[0]);
      TitleIdempotent(s[1..], IsCased(s[0]));
    }
  }

  function DigitChar(d: nat): (c: char)
    requires d < 10
    ensures '0' <= c <= '9'
    ensures c as int - '0' as int == d
  {
    ('0' as int + d) as char
  }

  /** `str(n)` for a natural number: its decimal digits, without leading zeros. */
  function NatToString(n: nat): (r: string)
    ensures |r| >= 1
    ensures forall i :: 0 <= i < |r| ==> '0' <= r[i] <= '9'
    ensures (|r| == 1) == (n < 10)
  {
    if n < 10 then [DigitChar(n)] else NatToString(n / 10) + [DigitChar(n % 10)]
  }

  /** Distinct numbers print differently. */
  lemma {:induction false} NatToStringInjective(a: nat, b: nat)
    requires NatToString(a) == NatToString(b)
    ensures a == b
  {
    if a >= 10 && b >= 10 {
      var ra, rb := NatToString(a), NatToString(b);
      assert ra[|ra| - 1] == DigitChar(a % 10) && rb[|rb| - 1] == DigitChar(b % 10);
      assert a % 10 == b % 10;
      assert ra[..|ra| - 1] == NatToString(a / 10);
      assert rb[..|rb| - 1] == NatToString(b / 10);
      NatToStringInjective(a / 10, b / 10);
    } else if a < 10 && b < 10 {
      assert DigitChar(a) == DigitChar(b);
    }
  }

  lemma NatToStringDistinct(a: nat, b: nat)
    requires a != b
    ensures NatToString(a) != NatToString(b)
  {
    if NatToString(a) == NatToString(b) {
      NatToStringInjective(a, b);
    }
  }

  function Min(a: nat, b: nat): nat {
    if a < b then a else b
  }

  /**
   * `dict(zip(keys, values))`: the keys paired up to the shorter list, each with the value of
   * its last pair.
   */
  function ZipDict(keys: seq<string>, values: seq<string>): (d: map<string, string>)
    ensures d.Keys == set i | 0 <= i < Min(|keys|, |values|) :: keys[i]
    decreases |keys|
  {
    var n := Min(|keys|, |values|);
    if n == 0 then map[]
    else
      var ks, vs := keys[..n - 1], values[..n - 1];
      assert Min(|ks|, |vs|) == n - 1;
      assert (set i | 0 <= i < n :: keys[i]) == (set i | 0 <= i < n - 1 :: ks[i]) + {keys[n - 1]};
      ZipDict(ks, vs)[keys[n - 1] := values[n - 1]]
  }

  /** `dict(zip(keys, values))` has exactly the keys paired up to the shorter list. */
  lemma {:induction false} ZipDictKeys(keys: seq<string>, values: seq<string>, k: string)
    ensures k in ZipDict(keys, values) <==> exists i :: 0 <= i < Min(|keys|, |values|) && keys[i] == k
    decreases |keys|
  {
    var n := Min(|keys|, |values|);
    if n > 0 {
      var ks, vs := keys[..n - 1], values[..n - 1];
      assert Min(|ks|, |vs|) == n - 1;
      ZipDictKeys(ks, vs, k);
      assert ZipDict(keys, values) == ZipDict(ks, vs)[keys[n - 1] := values[n - 1]];
      if k in ZipDict(ks, vs) {
        var i :| 0 <= i < n - 1 && ks[i] == k;
        assert keys[i] == k;
      }
      if exists i :: 0 <= i < n && keys[i] == k {
        var i :| 0 <= i < n && keys[i] == k;
        if i < n - 1 {
          assert ks[i] == k;
        }
      }
    }
  }

  /** For a key that occurs more than once the later pair wins. */
  lemma {:induction false} ZipDictLatest(keys: seq<string>, values: seq<string>, k: string, i: nat)
    requires i < Min(|keys|, |values|) && keys[i] == k
    requires forall j :: i < j < Min(|keys|, |values|) ==> keys[j] != k
    ensures k in ZipDict(keys, values) && ZipDict(keys, values)[k] == values[i]
    decreases |keys|
  {
    var n := Min(|keys|, |values|);
    var ks, vs := keys[..n - 1], values[..n - 1];
    assert ZipDict(keys, values) == ZipDict(ks, vs)[keys[n - 1] := values[n - 1]];
    if i < n - 1 {
      assert Min(|ks|, |vs|) == n - 1;
      assert ks[i] == k && vs[i] == values[i];
      forall j | i < j < n - 1
        ensures ks[j] != k
      {
        assert ks[j] == keys[j];
      }
      ZipDictLatest(ks, vs, k, i);
    }
  }

  /** `d.get(k, '')`. */
  function Get(d: map<string, string>, k: string): string {
    if k in d then d[k] else ""
  }

  /** `dict(zip(keys, values)).get(k, '')`: the value paired with the last `k`, or "". */
  lemma ZipGet(keys: seq<string>, values: seq<string>, k: string)
    ensures (forall j :: 0 <= j < Min(|keys|, |values|) ==> keys[j] != k) ==> Get(ZipDict(keys, values), k) == ""
    ensures forall i :: 0 <= i < Min(|keys|, |values|) && keys[i] == k
                     && (forall j :: i < j < Min(|keys|, |values|) ==> keys[j] != k)
                     ==> Get(ZipDict(keys, values), k) == values[i]
  {
    ZipDictKeys(keys, values, k);
    forall i | 0 <= i < Min(|keys|, |values|) && keys[i] == k
               && (forall j :: i < j < Min(|keys|, |values|) ==> keys[j] != k)
      ensures Get(ZipDict(keys, values), k) == values[i]
    {
      ZipDictLatest(keys, values, k, i);
    }
  }
}
