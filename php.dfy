// The PHP built-ins the report application leans on, as pure definitions.
// A PHP string is a byte string: here a `string` whose characters are the
// bytes 0..255.

module Php {

  datatype Option<T> = None | Some(value: T)
  {
    function GetOr(default: T): T
    {
      if Some? then value else default
    }
  }

  /** PHP's `empty()` on a string: the empty string and "0" are empty. */
  predicate Empty(s: string)
  {
    s == "" || s == "0"
  }

  /** `empty()` on a value that may be null. */
  predicate EmptyOpt(o: Option<string>)
  {
    o.None? || Empty(o.value)
  }

  // ---------------------------------------------------------------------
  // trim

  /** The characters `trim()` strips by default: " \t\n\r\0\x0B". */
  const WhiteSpace: set<char> := {' ', '\t', '\n', '\r', '\0', 11 as char}

  function TrimLeft(s: string, cs: set<char>): (r: string)
    ensures |r| <= |s| && r == s[|s| - |r|..]
    ensures forall i :: 0 <= i < |s| - |r| ==> s[i] in cs
    ensures r == [] || r[0] !in cs
  {
    if |s| > 0 && s[0] in cs then TrimLeft(s[1..], cs) else s
  }

  function TrimRight(s: string, cs: set<char>): (r: string)
    ensures |r| <= |s| && r == s[..|r|]
    ensures forall i :: |r| <= i < |s| ==> s[i] in cs
    ensures r == [] || r[|r| - 1] !in cs
  {
    if |s| > 0 && s[|s| - 1] in cs then TrimRight(s[..|s| - 1], cs) else s
  }

  /** `trim($s, $chars)`: strips the maximal runs of `cs` at both ends. */
  function Trim(s: string, cs: set<char>): string
  {
    TrimRight(TrimLeft(s, cs), cs)
  }

  /** A string trims to nothing exactly when every character is strippable. */
  lemma TrimEmptyIff(s: string, cs: set<char>)
    ensures Trim(s, cs) == "" <==> forall i :: 0 <= i < |s| ==> s[i] in cs
  {
    var l := TrimLeft(s, cs);
    if Trim(s, cs) == "" {
      assert l == [];
    }
  }

  /** What is left after trimming is a stretch of the string whose ends are not strippable. */
  lemma TrimSlice(s: string, cs: set<char>) returns (a: int, b: int)
    ensures 0 <= a <= b <= |s| && Trim(s, cs) == s[a..b]
    ensures a < b ==> s[a] !in cs && s[b - 1] !in cs
  {
    var l := TrimLeft(s, cs);
    var t := TrimRight(l, cs);
    a := |s| - |l|;
    b := a + |t|;
    assert t == s[a..b];
    if a < b {
      assert s[a] == t[0] && s[b - 1] == t[|t| - 1];
    }
  }

  /** Trimming leaves the string alone when neither end is strippable. */
  lemma TrimNoop(s: string, cs: set<char>)
    requires s == [] || (s[0] !in cs && s[|s| - 1] !in cs)
    ensures Trim(s, cs) == s
  {
  }

  // ---------------------------------------------------------------------
  // strtolower (byte-wise, C locale)

  function LowerChar(c: char): char
  {
    if 'A' <= c <= 'Z' then (c as int + 32) as char else c
  }

  function ToLower(s: string): (r: string)
    ensures |r| == |s|
    ensures forall i :: 0 <= i < |s| ==> r[i] == LowerChar(s[i])
  {
    if s == [] then [] else [LowerChar(s[0])] + ToLower(s[1..])
  }

  // ---------------------------------------------------------------------
  // Integers as decimal text: string concatenation of an int, and intval()

  predicate IsDigit(c: char)
  {
    '0' <= c <= '9'
  }

  function DigitChar(d: nat): char
    requires d < 10
  {
    ('0' as int + d) as char
  }

  /** Decimal digits of a natural number, most significant first. */
  function NatToString(n: nat): (r: string)
    ensures |r| > 0
    ensures forall i :: 0 <= i < |r| ==> IsDigit(r[i])
    decreases n
  {
    if n < 10 then [DigitChar(n)] else NatToString(n / 10) + [DigitChar(n % 10)]
  }

  /** PHP's conversion of an integer to a string. */
  function IntToString(n: int): string
  {
    if n < 0 then "-" + NatToString(-n) else NatToString(n)
  }

  /** The value of a string of decimal digits. */
  function DigitsValue(s: string): nat
    requires forall i :: 0 <= i < |s| ==> IsDigit(s[i])
  {
    if s == [] then 0
    else
      assert IsDigit(s[|s| - 1]);
      DigitsValue(s[..|s| - 1]) * 10 + (s[|s| - 1] as int - '0' as int)
  }

  function LeadingDigits(s: string): (r: string)
    ensures |r| <= |s| && r == s[..|r|]
    ensures forall i :: 0 <= i < |r| ==> IsDigit(r[i])
    ensures |r| == |s| || !IsDigit(s[|r|])
  {
    if s != [] && IsDigit(s[0]) then [s[0]] + LeadingDigits(s[1..]) else []
  }

  /** The characters C's isspace() accepts, which intval() skips first. */
  const IntSpace: set<char> := {' ', '\t', '\n', '\r', 11 as char, 12 as char}

  /**
   * `intval($s)` on a string: leading white space, an optional sign, then
   * the longest run of digits; 0 when there are none. The saturation at
   * PHP_INT_MAX is not modelled.
   */
  function Intval(s: string): int
  {
    var t := TrimLeft(s, IntSpace);
    if t != [] && t[0] == '-' then 0 - DigitsValue(LeadingDigits(t[1..]))
    else if t != [] && t[0] == '+' then DigitsValue(LeadingDigits(t[1..]))
    else DigitsValue(LeadingDigits(t))
  }

  lemma {:induction false} NatToStringValue(n: nat)
    ensures DigitsValue(NatToString(n)) == n
    decreases n
  {
    if n >= 10 {
      var s := NatToString(n);
      assert s[..|s| - 1] == NatToString(n / 10);
      NatToStringValue(n / 10);
    }
  }

  lemma LeadingDigitsAll(s: string)
    requires forall i :: 0 <= i < |s| ==> IsDigit(s[i])
    ensures LeadingDigits(s) == s
  {
  }

  lemma TrimLeftStop(s: string, cs: set<char>)
    requires s != [] && s[0] !in cs
    ensures TrimLeft(s, cs) == s
  {
  }

  /** intval() reads back every integer PHP prints. */
  lemma {:induction false} IntvalIntToString(n: int)
    ensures Intval(IntToString(n)) == n
  {
    if n < 0 {
      IntvalNegative(-n);
    } else {
      IntvalNatural(n);
    }
  }

  lemma {:induction false} IntvalNatural(n: nat)
    ensures Intval(NatToString(n)) == n
  {
    hide Intval;
    var s := NatToString(n);
    assert IsDigit(s[0]);
    assert s[0] !in IntSpace;
    TrimLeftStop(s, IntSpace);
    LeadingDigitsAll(s);
    NatToStringValue(n);
    IntvalDigits(s);
  }

  lemma {:induction false} IntvalDigits(s: string)
    requires s != [] && IsDigit(s[0]) && TrimLeft(s, IntSpace) == s
    ensures Intval(s) == DigitsValue(LeadingDigits(s))
  {
  }

  lemma {:induction false} IntvalNegative(m: nat)
    requires m > 0
    ensures Intval("-" + NatToString(m)) == -(m as int)
  {
    var d := NatToString(m);
    var s := "-" + d;
    assert s[0] !in IntSpace;
    TrimLeftStop(s, IntSpace);
    assert s[1..] == d;
    LeadingDigitsAll(d);
    NatToStringValue(m);
  }

  // ---------------------------------------------------------------------
  // Substrings and str_replace

  /** `k` occurs in `s` at position `i`. */
  predicate IsAt(s: string, k: string, i: int)
  {
    0 <= i && i + |k| <= |s| && s[i..i + |k|] == k
  }

  predicate Occurs(k: string, s: string)
  {
    exists i | 0 <= i <= |s| :: IsAt(s, k, i)
  }

  /**
   * The first position at or after `from` where `pat` starts, as PCRE's
   * leftmost search finds it.
   */
  function Find(pat: string, s: string, from: nat): (r: Option<nat>)
    requires from <= |s|
    ensures r.Some? ==> from <= r.value <= |s| && IsAt(s, pat, r.value)
    ensures r.Some? ==> forall j :: from <= j < r.value ==> !IsAt(s, pat, j)
    ensures r.None? ==> forall j :: from <= j ==> !IsAt(s, pat, j)
    decreases |s| - from
  {
    if IsAt(s, pat, from) then Some(from)
    else if from == |s| then None
    else Find(pat, s, from + 1)
  }

  /**
   * `str_replace($k, $v, $s)` for one search string: a left-to-right scan
   * that replaces every non-overlapping occurrence. An empty search string
   * leaves the subject unchanged.
   */
  function ReplaceAll(s: string, k: string, v: string): string
    decreases |s|
  {
    if |k| == 0 || |s| == 0 then s
    else if |k| <= |s| && s[..|k|] == k then v + ReplaceAll(s[|k|..], k, v)
    else [s[0]] + ReplaceAll(s[1..], k, v)
  }

  /** A search string that does not occur leaves the subject unchanged. */
  lemma {:induction false} ReplaceAllAbsent(s: string, k: string, v: string)
    requires !Occurs(k, s)
    ensures ReplaceAll(s, k, v) == s
    decreases |s|
  {
    if |k| > 0 && |s| > 0 {
      assert !IsAt(s, k, 0);
      assert !Occurs(k, s[1..]) by {
        if Occurs(k, s[1..]) {
          var i :| 0 <= i <= |s[1..]| && IsAt(s[1..], k, i);
          assert s[1..][i..i + |k|] == s[i + 1..i + 1 + |k|];
          assert IsAt(s, k, i + 1);
        }
      }
      ReplaceAllAbsent(s[1..], k, v);
      assert s == [s[0]] + s[1..];
    }
  }

  /** A one-character string that is not among the characters of `s` does not occur in it. */
  lemma AbsentChar(k: string, s: string)
    requires |k| == 1 && k[0] !in s
    ensures !Occurs(k, s)
  {
    forall i | 0 <= i <= |s| ensures !IsAt(s, k, i) {
      if i < |s| {
        assert s[i..i + 1][0] == s[i];
      }
    }
  }

  /** Replacing a string by itself changes nothing. */
  lemma {:induction false} ReplaceAllSelf(s: string, k: string)
    ensures ReplaceAll(s, k, k) == s
    decreases |s|
  {
    if |k| == 0 || |s| == 0 {
    } else if |k| <= |s| && s[..|k|] == k {
      ReplaceAllSelf(s[|k|..], k);
      assert s == k + s[|k|..];
    } else {
      ReplaceAllSelf(s[1..], k);
      assert s == [s[0]] + s[1..];
    }
  }

  /** `implode($sep, $xs)`. */
  function Join(xs: seq<string>, sep: string): (r: string)
    ensures xs == [] ==> r == ""
    ensures |xs| == 1 ==> r == xs[0]
  {
    if xs == [] then ""
    else if |xs| == 1 then xs[0]
    else xs[0] + sep + Join(xs[1..], sep)
  }

  // ---------------------------------------------------------------------
  // Ordered arrays with string keys

  type Assoc<V> = seq<(string, V)>

  function Keys<V>(m: Assoc<V>): (ks: seq<string>)
    ensures |ks| == |m|
    ensures forall i :: 0 <= i < |m| ==> ks[i] == m[i].0
  {
    if m == [] then [] else [m[0].0] + Keys(m[1..])
  }

  predicate KeysDistinct<V>(m: Assoc<V>)
  {
    forall i, j :: 0 <= i < j < |m| ==> m[i].0 != m[j].0
  }

  /** `$m[$k]` (null when `$k` is absent): the first entry with that key. */
  function Lookup<V>(m: Assoc<V>, k: string): (r: Option<V>)
    ensures r.Some? <==> exists i :: 0 <= i < |m| && m[i].0 == k
    ensures r.Some? ==> exists i :: 0 <= i < |m| && m[i] == (k, r.value)
  {
    if m == [] then None
    else if m[0].0 == k then Some(m[0].1)
    else
      var r := Lookup(m[1..], k);
      assert forall i :: 0 < i < |m| ==> m[i] == m[1..][i - 1];
      r
  }

  /**
   * `$m[$k] = $v`: overwrites the value in place when the key is present,
   * appends a new entry otherwise.
   */
  function Put<V>(m: Assoc<V>, k: string, v: V): Assoc<V>
  {
    if m == [] then [(k, v)]
    else if m[0].0 == k then [(k, v)] + m[1..]
    else [m[0]] + Put(m[1..], k, v)
  }

  /** After `$m[$k] = $v`, `$m[$k]` is `v` and every other key reads as before. */
  lemma {:induction false} PutLookup<V>(m: Assoc<V>, k: string, v: V, k': string)
    ensures Lookup(Put(m, k, v), k') == if k' == k then Some(v) else Lookup(m, k')
  {
    if m != [] && m[0].0 != k {
      var t := Put(m[1..], k, v);
      assert ([m[0]] + t)[1..] == t;
      PutLookup(m[1..], k, v, k');
    } else if m != [] {
      assert ([(k, v)] + m[1..])[1..] == m[1..];
    }
  }

  /** A present key keeps its position; a new key goes to the end. */
  lemma {:induction false} PutKeys<V>(m: Assoc<V>, k: string, v: V)
    ensures Keys(Put(m, k, v)) == if k in Keys(m) then Keys(m) else Keys(m) + [k]
  {
    if m != [] {
      if m[0].0 == k {
        assert Keys(m)[0] == k;
      } else {
        PutKeys(m[1..], k, v);
        assert Keys(m) == [m[0].0] + Keys(m[1..]);
        assert k in Keys(m) <==> k in Keys(m[1..]);
      }
    }
  }

  lemma PutKeysDistinct<V>(m: Assoc<V>, k: string, v: V)
    requires KeysDistinct(m)
    ensures KeysDistinct(Put(m, k, v))
  {
    var r := Put(m, k, v);
    PutKeys(m, k, v);
    forall i, j | 0 <= i < j < |r| ensures r[i].0 != r[j].0 {
      assert Keys(r)[i] == r[i].0 && Keys(r)[j] == r[j].0;
      assert Keys(m)[..|m|] == Keys(m);
    }
  }

  // ---------------------------------------------------------------------
  // htmlspecialchars (ENT_COMPAT: the single quote is kept; UTF-8, PHP's
  // default character set, without ENT_IGNORE or ENT_SUBSTITUTE)

  /** A UTF-8 continuation byte, 0x80 to 0xBF. */
  predicate Trail(c: char)
  {
    0x80 <= c as int <= 0xBF
  }

  /**
   * The length of the well-formed UTF-8 sequence that starts `s`, or 0 when
   * none does: no overlong form, no surrogate, nothing above U+10FFFF
   * (table 3-7 of the Unicode Standard). A character above 0xFF is not a
   * byte and starts no sequence.
   */
  function Utf8Width(s: string): (n: nat)
    ensures n <= |s| && n <= 4
    ensures n > 0 ==> s != []
  {
    if s == [] then 0
    else
      var b := s[0] as int;
      if b < 0x80 then 1
      else if 0xC2 <= b <= 0xDF then
        (if |s| >= 2 && Trail(s[1]) then 2 else 0)
      else if 0xE0 <= b <= 0xEF then
        (if |s| >= 3 && Trail(s[2])
            && (if b == 0xE0 then 0xA0 <= s[1] as int <= 0xBF
                else if b == 0xED then 0x80 <= s[1] as int <= 0x9F
                else Trail(s[1]))
         then 3 else 0)
      else if 0xF0 <= b <= 0xF4 then
        (if |s| >= 4 && Trail(s[2]) && Trail(s[3])
            && (if b == 0xF0 then 0x90 <= s[1] as int <= 0xBF
                else if b == 0xF4 then 0x80 <= s[1] as int <= 0x8F
                else Trail(s[1]))
         then 4 else 0)
      else 0
  }

  /** `s` is a sequence of well-formed UTF-8 characters. */
  predicate ValidUtf8(s: string)
    decreases |s|
  {
    s == [] || (Utf8Width(s) > 0 && ValidUtf8(s[Utf8Width(s)..]))
  }

  /** Text of bytes below 0x80 is valid UTF-8. */
  lemma {:induction false} AsciiValid(s: string)
    requires forall i :: 0 <= i < |s| ==> s[i] as int < 0x80
    ensures ValidUtf8(s)
    decreases |s|
  {
    if s != [] {
      assert Utf8Width(s) == 1;
      AsciiValid(s[1..]);
    }
  }

  /** Bytes below 0x80 at the front are single characters and decide nothing. */
  lemma {:induction false} AsciiPrefixStep(s: string, k: nat)
    requires k <= |s|
    requires forall i :: 0 <= i < k ==> s[i] as int < 0x80
    ensures ValidUtf8(s) <==> ValidUtf8(s[k..])
    decreases k
  {
    if k > 0 {
      assert Utf8Width(s) == 1;
      var t := s[1..];
      forall i | 0 <= i < k - 1 ensures t[i] as int < 0x80 {
        assert t[i] == s[i + 1];
      }
      AsciiPrefixStep(t, k - 1);
      assert t[k - 1..] == s[k..];
    }
  }

  function EscapeChar(c: char): string
  {
    if c == '&' then "&amp;"
    else if c == '"' then "&quot;"
    else if c == '<' then "&lt;"
    else if c == '>' then "&gt;"
    else [c]
  }

  /** The escaping proper: the four special characters become entities. */
  function Escaped(s: string): (r: string)
    ensures '<' !in r && '>' !in r && '"' !in r
    ensures '[' in r <==> '[' in s
    ensures (forall i :: 0 <= i < |s| ==> s[i] !in {'&', '"', '<', '>'}) ==> r == s
  {
    if s == [] then "" else EscapeChar(s[0]) + Escaped(s[1..])
  }

  /**
   * `htmlspecialchars($s)`: the special characters escaped, or "" when
   * `s` is not valid UTF-8.
   */
  function HtmlSpecialChars(s: string): (r: string)
    ensures '<' !in r && '>' !in r && '"' !in r
    ensures '[' in r ==> '[' in s
    ensures ValidUtf8(s) ==> ('[' in r <==> '[' in s)
    ensures !ValidUtf8(s) ==> r == ""
    ensures ValidUtf8(s) && (forall i :: 0 <= i < |s| ==> s[i] !in {'&', '"', '<', '>'}) ==> r == s
  {
    if ValidUtf8(s) then Escaped(s) else ""
  }

  /** A Latin-1 "Société" is not UTF-8: the whole text is dropped. */
  lemma Latin1Dropped()
    ensures !ValidUtf8("Soci\U{E9}t\U{E9}")
    ensures HtmlSpecialChars("Soci\U{E9}t\U{E9}") == ""
  {
    var s := "Soci\U{E9}t\U{E9}";
    AsciiPrefixStep(s, 4);
    var t := s[4..];
    assert t[0] == '\U{E9}';
    assert Utf8Width(t) == 0;
  }

  /** A byte below 0x80 in front of valid text keeps it valid. */
  lemma AsciiCons(c: char, t: string)
    requires c as int < 0x80 && ValidUtf8(t)
    ensures ValidUtf8([c] + t)
  {
    assert Utf8Width([c] + t) == 1;
    assert ([c] + t)[1..] == t;
  }

  /** A two-byte character whose lead is 0xC2 to 0xDF, in front of valid text, keeps it valid. */
  lemma TwoByteCons(lead: char, trail: char, t: string)
    requires 0xC2 <= lead as int <= 0xDF && Trail(trail) && ValidUtf8(t)
    ensures ValidUtf8([lead, trail] + t)
  {
    assert Utf8Width([lead, trail] + t) == 2;
    assert ([lead, trail] + t)[2..] == t;
  }

  /** "Société" in UTF-8 is valid. */
  lemma Utf8Valid()
    ensures ValidUtf8("Soci\U{C3}\U{A9}t\U{C3}\U{A9}")
  {
    assert ValidUtf8([]);
    hide ValidUtf8, Utf8Width;
    TwoByteCons('\U{C3}', '\U{A9}', []);
    var e: string := ['\U{C3}', '\U{A9}'] + [];
    AsciiCons('t', e);
    TwoByteCons('\U{C3}', '\U{A9}', ['t'] + e);
    var w: string := ['\U{C3}', '\U{A9}'] + (['t'] + e);
    AsciiCons('i', w);
    AsciiCons('c', ['i'] + w);
    AsciiCons('o', ['c'] + (['i'] + w));
    AsciiCons('S', ['o'] + (['c'] + (['i'] + w)));
    assert ['S'] + (['o'] + (['c'] + (['i'] + w))) == "Soci\U{C3}\U{A9}t\U{C3}\U{A9}";
  }

  /** The same word in UTF-8 comes out as it went in. */
  lemma Utf8Kept()
    ensures HtmlSpecialChars("Soci\U{C3}\U{A9}t\U{C3}\U{A9}") == "Soci\U{C3}\U{A9}t\U{C3}\U{A9}"
  {
    var s := "Soci\U{C3}\U{A9}t\U{C3}\U{A9}";
    hide ValidUtf8, Utf8Width, Escaped;
    Utf8Valid();
    forall i | 0 <= i < |s| ensures s[i] !in {'&', '"', '<', '>'} {
      assert s[i] in "Soci\U{C3}\U{A9}t";
    }
  }

  // ---------------------------------------------------------------------
  // urlencode

  predicate UrlSafe(c: char)
  {
    ('a' <= c <= 'z') || ('A' <= c <= 'Z') || IsDigit(c) || c == '-' || c == '_' || c == '.'
  }

  function HexDigit(d: nat): char
    requires d < 16
  {
    if d < 10 then DigitChar(d) else ('A' as int + d - 10) as char
  }

  function EncodeByte(c: char): string
  {
    if UrlSafe(c) then [c]
    else if c == ' ' then "+"
    else ['%', HexDigit((c as int % 256) / 16), HexDigit(c as int % 16)]
  }

  /** `urlencode()`: the output uses only letters, digits, "-_.+%". */
  function UrlEncode(s: string): (r: string)
    ensures forall i :: 0 <= i < |r| ==> UrlSafe(r[i]) || r[i] == '+' || r[i] == '%'
  {
    if s == [] then "" else EncodeByte(s[0]) + UrlEncode(s[1..])
  }

  // ---------------------------------------------------------------------
  // pathinfo($name, PATHINFO_EXTENSION)

  /** The part of `s` after the last `c`, or all of `s` when there is none. */
  function AfterLast(s: string, c: char): (r: string)
    ensures c !in r
    ensures |r| <= |s| && r == s[|s| - |r|..]
    ensures |r| < |s| ==> s[|s| - |r| - 1] == c
  {
    if s == [] then []
    else if s[|s| - 1] == c then []
    else AfterLast(s[..|s| - 1], c) + [s[|s| - 1]]
  }

  /**
   * The extension of an uploaded file's name: what follows the last dot of
   * the last path component, or "" when that component has no dot.
   */
  function Extension(name: string): (ext: string)
    ensures '.' !in ext && '/' !in ext
  {
    var base := AfterLast(name, '/');
    if '.' in base then AfterLast(base, '.') else ""
  }

  /** Appending ".ext" to any name makes `ext` its extension. */
  lemma ExtensionOf(stem: string, ext: string)
    requires '.' !in ext && '/' !in ext
    ensures Extension(stem + "." + ext) == ext
  {
    var name := stem + "." + ext;
    AfterLastSuffix(stem + ".", ext, '/');
    var base := AfterLast(name, '/');
    assert base == AfterLast(stem + ".", '/') + ext;
    var b0 := AfterLast(stem + ".", '/');
    assert b0 != [] && b0[|b0| - 1] == '.' by {
      assert (stem + ".")[|stem|] == '.';
    }
    assert '.' in base by { assert base[|b0| - 1] == '.'; }
    AfterLastSuffix(b0, ext, '.');
    assert AfterLast(b0, '.') == [] by { assert b0 == b0[..|b0| - 1] + ['.']; }
  }

  /** A last character other than `c` stays at the end of what follows the last `c`. */
  lemma {:induction false} AfterLastSnoc(s: string, x: char, c: char)
    requires x != c
    ensures AfterLast(s + [x], c) == AfterLast(s, c) + [x]
  {
    assert (s + [x])[..|s|] == s;
  }

  lemma {:induction false} AfterLastSuffix(a: string, b: string, c: char)
    requires c !in b
    ensures AfterLast(a + b, c) == AfterLast(a, c) + b
    decreases |b|
  {
    hide AfterLast;
    if b == [] {
      assert a + b == a;
    } else {
      var b' := b[..|b| - 1];
      var x := b[|b| - 1];
      assert b == b' + [x];
      assert a + b == (a + b') + [x];
      AfterLastSnoc(a + b', x, c);
      AfterLastSuffix(a, b', c);
    }
  }
}
