/**
 * String rules the handlers build names and checks from: suffix tests, ASCII
 * lower-casing, Node's path.extname / path.basename / path.parse on a bare file
 * name (no separators), Python's rsplit('.', 1), and the decimal rendering of
 * a millisecond timestamp.
 */
module Text {
  import opened Common

  predicate EndsWith(s: string, suffix: string)
  {
    |suffix| <= |s| && s[|s| - |suffix|..] == suffix
  }

  /** The dataset listings' filter, the same in both back ends: a name ending in `.csv` or `.json`. */
  predicate IsDatasetFile(name: string)
  {
    EndsWith(name, ".csv") || EndsWith(name, ".json")
  }

  function LowerChar(c: char): char
  {
    if 'A' <= c <= 'Z' then (c as int + 32) as char else c
  }

  /** String.prototype.toLowerCase / str.lower, restricted to ASCII letters. */
  function ToLower(s: string): (r: string)
    ensures |r| == |s|
    ensures forall i :: 0 <= i < |s| ==> r[i] == LowerChar(s[i])
  {
    if s == [] then [] else [LowerChar(s[0])] + ToLower(s[1..])
  }

  /** Index of the last occurrence of `c` in `s`. */
  function LastIndexOf(s: string, c: char): (r: Option<nat>)
    ensures r.None? <==> c !in s
    ensures r.Some? ==> r.value < |s| && s[r.value] == c && c !in s[r.value + 1..]
  {
    if s == [] then None
    else if s[|s| - 1] == c then Some(|s| - 1)
    else
      var r := LastIndexOf(s[..|s| - 1], c);
      assert r.Some? ==> s[r.value + 1..] == s[..|s| - 1][r.value + 1..] + [s[|s| - 1]];
      assert s == s[..|s| - 1] + [s[|s| - 1]];
      r
  }

  /**
   * path.extname: from the last '.' to the end, or "" when there is no '.',
   * when the only candidate '.' opens the name (".env") or the name is "..".
   */
  function Extname(name: string): (ext: string)
    ensures ext == "" || (ext[0] == '.' && '.' !in ext[1..] && |ext| < |name| && EndsWith(name, ext))
  {
    match LastIndexOf(name, '.')
    case None => ""
    case Some(i) => if i == 0 || name == ".." then "" else name[i..]
  }

  /** path.basename(name, suffix): the name without `suffix` when it ends in it. */
  function Basename(name: string, suffix: string): (base: string)
    ensures 0 < |suffix| && EndsWith(name, suffix) ==> base + suffix == name
    ensures !(0 < |suffix| && EndsWith(name, suffix)) ==> base == name
  {
    if 0 < |suffix| <= |name| then
      if suffix == name then ""
      else if EndsWith(name, suffix) then name[..|name| - |suffix|]
      else name
    else name
  }

  /** path.parse(name).name: the name without what Extname reports. */
  function ParsedName(name: string): (stem: string)
    ensures stem + Extname(name) == name
  {
    name[..|name| - |Extname(name)|]
  }

  /** Python's name.rsplit('.', 1)[1]: the text after the last '.'. */
  function AfterLastDot(name: string): (tail: string)
    requires '.' in name
    ensures '.' !in tail && EndsWith(name, "." + tail)
  {
    var i := LastIndexOf(name, '.').value;
    assert name[i..] == "." + name[i + 1..];
    name[i + 1..]
  }

  predicate IsDigit(c: char)
  {
    '0' <= c <= '9'
  }

  predicate AllDigits(s: string)
  {
    forall i :: 0 <= i < |s| ==> IsDigit(s[i])
  }

  function DigitChar(d: nat): (c: char)
    requires d < 10
    ensures IsDigit(c)
  {
    ('0' as int + d) as char
  }

  /** The decimal rendering of a natural number, as `${n}` writes it. */
  function Decimal(n: nat): (s: string)
    ensures 0 < |s| && AllDigits(s)
  {
    if n < 10 then [DigitChar(n)] else Decimal(n / 10) + [DigitChar(n % 10)]
  }

  /** The number spelled by the decimal digits of `s`; every other character is skipped. */
  function DigitsValue(s: string): nat
  {
    if s == [] then 0
    else if IsDigit(s[|s| - 1]) then DigitsValue(s[..|s| - 1]) * 10 + (s[|s| - 1] as int - '0' as int)
    else DigitsValue(s[..|s| - 1])
  }

  /** Reading back a rendered number gives the number. */
  lemma {:induction false} DecimalRoundTrip(n: nat)
    ensures DigitsValue(Decimal(n)) == n
  {
    if n >= 10 {
      DecimalRoundTrip(n / 10);
      var s := Decimal(n);
      assert s[..|s| - 1] == Decimal(n / 10);
    }
  }

  /** Distinct timestamps render differently. */
  lemma DecimalInjective()
    ensures forall a: nat, b: nat :: Decimal(a) == Decimal(b) ==> a == b
  {
    forall a: nat, b: nat | Decimal(a) == Decimal(b)
      ensures a == b
    {
      DecimalRoundTrip(a);
      DecimalRoundTrip(b);
    }
  }

  /** Appending a dotted extension to a non-empty stem makes Extname report it. */
  lemma ExtnameOfAppended(stem: string, ext: string)
    requires 0 < |stem| && 1 < |ext| && ext[0] == '.' && '.' !in ext[1..]
    ensures Extname(stem + ext) == ext
  {
    var name := stem + ext;
    assert name[|stem|] == '.';
    assert name[|stem| + 1..] == ext[1..];
    var r := LastIndexOf(name, '.');
    assert r == Some(|stem|);
    assert name != "..";
    assert name[r.value..] == ext;
  }

  /** Whatever precedes a string ending in `suffix` still ends in it. */
  lemma EndsWithAppended(a: string, b: string, suffix: string)
    requires EndsWith(b, suffix)
    ensures EndsWith(a + b, suffix)
  {
    assert (a + b)[|a + b| - |suffix|..] == b[|b| - |suffix|..];
  }

  /** A string ending in `suffix` is its stem followed by `suffix`. */
  lemma SplitSuffix(s: string, suffix: string)
    requires EndsWith(s, suffix)
    ensures s == s[..|s| - |suffix|] + suffix
  {
  }

  /** rsplit('.', 1)[1] of a name ending in `.ext` is `ext` when `ext` has no '.'. */
  lemma AfterLastDotOfSuffix(stem: string, ext: string)
    requires '.' !in ext
    ensures '.' in stem + "." + ext && AfterLastDot(stem + "." + ext) == ext
  {
    var name := stem + "." + ext;
    assert name[|stem|] == '.';
    assert name[|stem| + 1..] == ext;
    assert LastIndexOf(name, '.') == Some(|stem|);
  }
}
