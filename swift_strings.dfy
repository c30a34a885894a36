/**
 The string operations of Swift and Foundation that the favicon handler relies on:
 `Int(text)`, `contains`, NSString's `lastPathComponent` and
 `componentsSeparatedByString`. Only ASCII decimal digits count as digits.
 */
module SwiftStrings {
  import opened Wrappers

  /** Bounds of Swift's `Int` on a 64-bit device. */
  const IntMax: int := 0x7FFF_FFFF_FFFF_FFFF
  const IntMin: int := -0x8000_0000_0000_0000

  /** `n` copies of `x`. */
  function Repeat<T>(x: T, n: nat): (r: seq<T>)
    ensures |r| == n && forall k :: 0 <= k < n ==> r[k] == x
  {
    seq(n, _ => x)
  }

  predicate IsDigit(c: char) {
    '0' <= c <= '9'
  }

  predicate AllDigits(s: string) {
    forall k :: 0 <= k < |s| ==> IsDigit(s[k])
  }

  /** The value of a string of decimal digits, most significant first. */
  function DigitsValue(s: string): nat
    requires AllDigits(s)
  {
    if s == [] then 0 else DigitsValue(s[..|s| - 1]) * 10 + (s[|s| - 1] as int - '0' as int)
  }

  /**
   Swift's `Int(text)`: an optional `+` or `-`, then one or more decimal digits,
   whose value must fit in `Int`; anything else (the empty string included) is nil.
   */
  function ParseInt(s: string): (r: Option<int>)
    ensures r.Some? ==> |s| > 0 && IntMin <= r.value <= IntMax
    ensures r.Some? && AllDigits(s) ==> r.value == DigitsValue(s)
  {
    var signed := |s| > 0 && (s[0] == '+' || s[0] == '-');
    var digits := if signed then s[1..] else s;
    if digits == [] || !AllDigits(digits) then None
    else
      var v: int := if signed && s[0] == '-' then -(DigitsValue(digits) as int) else DigitsValue(digits);
      if IntMin <= v <= IntMax then Some(v) else None
  }

  /** Decimal rendering of a natural number, the inverse of `DigitsValue`. */
  function Decimal(n: nat): (s: string)
    ensures |s| > 0 && AllDigits(s)
  {
    var last := ('0' as int + n % 10) as char;
    if n < 10 then [last] else Decimal(n / 10) + [last]
  }

  lemma {:induction false} DecimalValue(n: nat)
    ensures DigitsValue(Decimal(n)) == n
  {
    var s := Decimal(n);
    if n >= 10 {
      DecimalValue(n / 10);
      assert s[..|s| - 1] == Decimal(n / 10);
    }
  }

  /** `Int(text)` reads back every in-range decimal rendering, with or without a sign. */
  lemma ParseIntDecimal(n: nat)
    requires n <= IntMax
    ensures ParseInt(Decimal(n)) == Some(n)
    ensures ParseInt("+" + Decimal(n)) == Some(n)
    ensures ParseInt("-" + Decimal(n)) == Some(-(n as int))
  {
    DecimalValue(n);
    var d := Decimal(n);
    assert ("+" + d)[1..] == d;
    assert ("-" + d)[1..] == d;
  }

  /** `haystack.contains(needle)`: the needle occurs as a contiguous substring. */
  predicate Contains(haystack: string, needle: string) {
    exists i :: 0 <= i <= |haystack| && needle <= haystack[i..]
  }

  lemma ContainsInfix(before: string, needle: string, after: string)
    ensures Contains(before + needle + after, needle)
  {
    var s := before + needle + after;
    assert s[|before|..][..|needle|] == needle;
  }

  /** The prefix of `s` left after removing every trailing `/`. */
  function StripTrailingSlashes(s: string): (t: string)
    ensures t <= s
    ensures t == [] || t[|t| - 1] != '/'
    ensures forall k :: |t| <= k < |s| ==> s[k] == '/'
  {
    if s != [] && s[|s| - 1] == '/' then StripTrailingSlashes(s[..|s| - 1]) else s
  }

  /** The longest suffix of `s` without a `/`. */
  function AfterLastSlash(s: string): (r: string)
    ensures |r| <= |s| && r == s[|s| - |r|..]
    ensures '/' !in r
    ensures |r| < |s| ==> s[|s| - |r| - 1] == '/'
  {
    if s == [] || s[|s| - 1] == '/' then []
    else
      var r' := AfterLastSlash(s[..|s| - 1]);
      assert s[..|s| - 1][|s| - 1 - |r'|..] + [s[|s| - 1]] == s[|s| - 1 - |r'|..];
      r' + [s[|s| - 1]]
  }

  /**
   NSString's `lastPathComponent`: trailing slashes are ignored, then the text after
   the last remaining `/`; a path made only of slashes gives "/".
   */
  function LastPathComponent(path: string): string {
    var t := StripTrailingSlashes(path);
    if t == [] then (if path == [] then [] else "/") else AfterLastSlash(t)
  }

  lemma {:induction false} AfterLastSlashJoin(dir: string, name: string)
    requires '/' !in name
    ensures AfterLastSlash(dir + "/" + name) == name
  {
    var s := dir + "/" + name;
    if name != [] {
      var init := name[..|name| - 1];
      assert s[..|s| - 1] == dir + "/" + init;
      AfterLastSlashJoin(dir, init);
      assert name == init + [name[|name| - 1]];
    }
  }

  /** The last component of `dir/name` is `name`, however many slashes follow it. */
  lemma LastPathComponentJoin(dir: string, name: string, slashes: nat)
    requires name != [] && '/' !in name
    ensures LastPathComponent(dir + "/" + name + Repeat('/', slashes)) == name
  {
    var joined := dir + "/" + name;
    var path := joined + Repeat('/', slashes);
    var t := StripTrailingSlashes(path);
    assert path[|joined| - 1] == name[|name| - 1] != '/';
    assert forall k :: |joined| <= k < |path| ==> path[k] == '/';
    assert |t| == |joined|;
    assert t == joined;
    AfterLastSlashJoin(dir, name);
  }

  /** The last component of `dir/name` is `name`. */
  lemma LastPathComponentOf(dir: string, name: string)
    requires name != [] && '/' !in name
    ensures LastPathComponent(dir + "/" + name) == name
  {
    assert dir + "/" + name + Repeat('/', 0) == dir + "/" + name;
    LastPathComponentJoin(dir, name, 0);
  }

  /** `componentsSeparatedByString`: the parts between separators, empty ones kept. */
  function Split(s: string, sep: char): (parts: seq<string>)
    ensures |parts| > 0
    ensures forall k :: 0 <= k < |parts| ==> sep !in parts[k]
  {
    if s == [] then [[]]
    else
      var rest := Split(s[1..], sep);
      if s[0] == sep then [[]] + rest else [[s[0]] + rest[0]] + rest[1..]
  }

  /** Splitting only drops separators: every character of a part comes from the input. */
  lemma {:induction false} SplitKeepsCharacters(s: string, sep: char)
    ensures forall k, c :: 0 <= k < |Split(s, sep)| && c in Split(s, sep)[k] ==> c in s
  {
    if s != [] {
      SplitKeepsCharacters(s[1..], sep);
      assert forall c :: c in s[1..] ==> c in s;
    }
  }

  /** The parts joined back with the separator. */
  function Join(parts: seq<string>, sep: char): string
    requires |parts| > 0
  {
    if |parts| == 1 then parts[0] else parts[0] + [sep] + Join(parts[1..], sep)
  }

  /** Joining the parts restores the string that was split. */
  lemma {:induction false} JoinSplit(s: string, sep: char)
    ensures Join(Split(s, sep), sep) == s
  {
    if s != [] {
      var rest := Split(s[1..], sep);
      JoinSplit(s[1..], sep);
      if s[0] != sep {
        if |rest| == 1 {
          assert Join(Split(s, sep), sep) == [s[0]] + rest[0];
        } else {
          assert Join(Split(s, sep), sep) == [s[0]] + rest[0] + [sep] + Join(rest[1..], sep);
        }
      }
    }
  }

  /** Splitting at a separator splits the two sides independently. */
  lemma {:induction false} SplitAround(a: string, sep: char, b: string)
    ensures Split(a + [sep] + b, sep) == Split(a, sep) + Split(b, sep)
  {
    if a != [] {
      assert (a + [sep] + b)[1..] == a[1..] + [sep] + b;
      SplitAround(a[1..], sep, b);
    } else {
      assert (a + [sep] + b)[1..] == b;
    }
  }

  lemma {:induction false} SplitWithoutSeparator(s: string, sep: char)
    requires sep !in s
    ensures Split(s, sep) == [s]
  {
    if s != [] {
      assert sep !in s[1..];
      SplitWithoutSeparator(s[1..], sep);
      assert s == [s[0]] + s[1..];
    }
  }

  /** A string of separators only splits into empty parts. */
  lemma {:induction false} SplitOnlySeparators(n: nat, sep: char)
    ensures Split(Repeat(sep, n), sep) == Repeat([], n + 1)
  {
    var s := Repeat(sep, n);
    if n > 0 {
      assert s[1..] == Repeat(sep, n - 1);
      SplitOnlySeparators(n - 1, sep);
    }
  }
}
